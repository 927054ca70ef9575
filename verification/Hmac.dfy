/** HMAC-SHA256 with two buffers padded in place, against section 2 of RFC 2104. SHA-256 is a parameter. */
module Hmac {
  import opened Codes

  const MAXIMUM_KEY_SIZE: nat := 64
  const SHA256_SIZE: nat := 32
  const IPAD: byte := 0x36
  const OPAD: byte := 0x5C

  /** The hash function of the security layer; it may fail. */
  type Sha = bytes -> Result<bytes>

  function Power(n: nat): nat {
    if n == 0 then 1 else 2 * Power(n - 1)
  }

  /** Exclusive or of the last bits of two numbers. */
  function XorBits(a: nat, b: nat, bits: nat): (x: nat)
    ensures x < Power(bits)
  {
    if bits == 0 then 0 else XorBits(a / 2, b / 2, bits - 1) * 2 + (a % 2 + b % 2) % 2
  }

  lemma EightBits()
    ensures Power(8) == 256
  {
    assert Power(4) == 16;
    assert Power(6) == 64;
  }

  function Xor(a: byte, b: byte): byte {
    EightBits();
    XorBits(a as nat, b as nat, 8) as byte
  }

  lemma {:induction false} XorBitsZero(b: nat, bits: nat)
    requires b < Power(bits)
    ensures XorBits(0, b, bits) == b && XorBits(b, 0, bits) == b
  {
    if bits > 0 {
      XorBitsZero(b / 2, bits - 1);
    }
  }

  lemma XorZero(b: byte)
    ensures Xor(0, b) == b
  {
    EightBits();
    XorBitsZero(b as nat, 8);
  }

  lemma HalfFirst(x: nat, p: nat)
    requires p in {1, 2, 4, 8, 16, 32, 64}
    ensures x / (2 * p) == x / 2 / p
  {
    if p == 1 {
    } else if p == 2 {
      assert x / 4 == x / 2 / 2;
    } else if p == 4 {
      assert x / 8 == x / 2 / 4;
    } else if p == 8 {
      assert x / 16 == x / 2 / 8;
    } else if p == 16 {
      assert x / 32 == x / 2 / 16;
    } else if p == 32 {
      assert x / 64 == x / 2 / 32;
    } else {
      assert x / 128 == x / 2 / 64;
    }
  }

  lemma Powers(k: nat)
    requires k < 8
    ensures Power(k) == [1, 2, 4, 8, 16, 32, 64, 128][k]
  {
    assert Power(2) == 4 && Power(4) == 16 && Power(6) == 64;
  }

  lemma Parity(x: nat, y: nat)
    requires x < 2 && y < 2
    ensures (x + y) % 2 == 1 <==> x != y
  {
  }

  lemma XorBitsStep(a: nat, b: nat, bits: nat)
    requires bits > 0
    ensures XorBits(a, b, bits) / 2 == XorBits(a / 2, b / 2, bits - 1)
    ensures XorBits(a, b, bits) % 2 == (a % 2 + b % 2) % 2
  {
  }

  lemma {:induction false} XorBitsBit(a: nat, b: nat, bits: nat, k: nat)
    requires k < bits && k < 8
    ensures Power(k) > 0
    ensures XorBits(a, b, bits) / Power(k) % 2 == 1 <==> a / Power(k) % 2 != b / Power(k) % 2
  {
    Powers(k);
    XorBitsStep(a, b, bits);
    Parity(a % 2, b % 2);
    if k > 0 {
      Powers(k - 1);
      HalfFirst(XorBits(a, b, bits), Power(k - 1));
      HalfFirst(a, Power(k - 1));
      HalfFirst(b, Power(k - 1));
      hide XorBits;
      XorBitsBit(a / 2, b / 2, bits - 1, k - 1);
    }
  }

  /** A bit of the result is set if and only if exactly one of the two bits is. */
  lemma XorIsExclusive(a: byte, b: byte, k: nat)
    requires k < 8
    ensures
      var weight := [1, 2, 4, 8, 16, 32, 64, 128][k];
      Xor(a, b) as nat / weight % 2 == 1 <==> a as nat / weight % 2 != b as nat / weight % 2
  {
    EightBits();
    XorBitsBit(a as nat, b as nat, 8, k);
    Powers(k);
    hide XorBits, Power;
  }

  lemma {:induction false} XorBitsTwice(a: nat, b: nat, bits: nat)
    requires a < Power(bits)
    ensures XorBits(XorBits(a, b, bits), b, bits) == a
  {
    if bits > 0 {
      var x := XorBits(a, b, bits);
      XorBitsStep(a, b, bits);
      XorBitsTwice(a / 2, b / 2, bits - 1);
      XorBitsStep(x, b, bits);
      hide XorBits;
      Parity(a % 2, b % 2);
      assert XorBits(x, b, bits) / 2 == a / 2 && XorBits(x, b, bits) % 2 == a % 2;
    }
  }

  /** Combining with the same byte twice changes nothing. */
  lemma XorTwice(a: byte, b: byte)
    ensures Xor(Xor(a, b), b) == a
  {
    EightBits();
    XorBitsTwice(a as nat, b as nat, 8);
  }

  // ---------- the definition of RFC 2104 ----------

  function Zeros(n: nat): (z: bytes)
    ensures |z| == n
  {
    seq(n, i => 0 as byte)
  }

  function XorAll(s: bytes, b: byte): (r: bytes)
    ensures |r| == |s|
  {
    seq(|s|, i requires 0 <= i < |s| => Xor(s[i], b))
  }

  /** The key filled up with zeros to the block size. */
  function BlockKey(key: bytes): (k: bytes)
    requires |key| <= 64
    ensures |k| == 64
  {
    key + Zeros(64 - |key|)
  }

  function Inner(key: bytes, data: bytes): bytes
    requires |key| <= 64
  {
    XorAll(BlockKey(key), IPAD) + data
  }

  function Outer(key: bytes, digest: bytes): bytes
    requires |key| <= 64
  {
    XorAll(BlockKey(key), OPAD) + digest
  }

  /** The hash of `x`; a digest of the wrong size counts as a failure. */
  function Digest(sha: Sha, x: bytes): (r: Result<bytes>)
    ensures r.Success? ==> |r.value| == SHA256_SIZE
  {
    match sha(x)
    case Failure(code) => Failure(code)
    case Success(d) => if |d| == SHA256_SIZE then Success(d) else Failure(Sha256CalculationFail)
  }

  /** A key longer than a block is replaced by its hash. */
  function ShortKey(sha: Sha, key: bytes): (r: Result<bytes>)
    ensures r.Success? ==> |r.value| <= MAXIMUM_KEY_SIZE
  {
    if |key| > MAXIMUM_KEY_SIZE then Digest(sha, key) else Success(key)
  }

  function Mac(sha: Sha, key: bytes, data: bytes): (r: Result<bytes>)
    ensures r.Success? ==> |r.value| == SHA256_SIZE
  {
    if key == [] then Failure(InvalidParameter)
    else
      match ShortKey(sha, key)
      case Failure(code) => Failure(code)
      case Success(k) =>
        match Digest(sha, Inner(k, data))
        case Failure(code) => Failure(code)
        case Success(d) => Digest(sha, Outer(k, d))
  }

  /** A block of the standard: the bytes of the key and zeros behind them, each combined with the pad. */
  predicate IsPadded(block: bytes, key: bytes, pad: byte) {
    |block| == 64 && forall i :: 0 <= i < 64 ==> block[i] == Xor(if i < |key| then key[i] else 0, pad)
  }

  lemma BlockIsPadded(key: bytes, pad: byte, block: bytes)
    requires |key| <= 64
    ensures IsPadded(block, key, pad) <==> block == XorAll(BlockKey(key), pad)
  {
    hide Xor;
    if IsPadded(block, key, pad) {
      assert forall i :: 0 <= i < 64 ==> block[i] == XorAll(BlockKey(key), pad)[i];
    }
  }

  /**
   With a hash function that works, every non-empty key gives the nested hash of the standard: the outer block is
   the key combined with 0x5C, the inner one the key combined with 0x36, byte by byte.
   */
  lemma MacIsNestedHash(sha: Sha, hash: bytes -> bytes, key: bytes, data: bytes, inner: bytes, outer: bytes)
    requires forall x :: |hash(x)| == 32 && sha(x) == Success(hash(x))
    requires key != []
    requires IsPadded(inner, if |key| > 64 then hash(key) else key, 0x36)
    requires IsPadded(outer, if |key| > 64 then hash(key) else key, 0x5C)
    ensures Mac(sha, key, data) == Success(hash(outer + hash(inner + data)))
  {
    BlockIsPadded(if |key| > 64 then hash(key) else key, 0x36, inner);
    BlockIsPadded(if |key| > 64 then hash(key) else key, 0x5C, outer);
    NestedHash(sha, hash, key, data);
  }

  lemma NestedHash(sha: Sha, hash: bytes -> bytes, key: bytes, data: bytes)
    requires forall x :: |hash(x)| == 32 && sha(x) == Success(hash(x))
    ensures key != [] ==>
              var k := if |key| > 64 then hash(key) else key;
              |k| <= 64 && Mac(sha, key, data)
              == Success(hash(XorAll(BlockKey(k), OPAD) + hash(XorAll(BlockKey(k), IPAD) + data)))
  {
    if key != [] {
      var k := if |key| > 64 then hash(key) else key;
      assert sha(key) == Success(hash(key));
      assert |hash(key)| == 32;
      assert ShortKey(sha, key) == Success(k);
      assert sha(Inner(k, data)) == Success(hash(Inner(k, data)));
      assert |hash(Inner(k, data))| == 32;
      assert sha(Outer(k, hash(Inner(k, data)))) == Success(hash(Outer(k, hash(Inner(k, data)))));
      assert |hash(Outer(k, hash(Inner(k, data))))| == 32;
    }
  }

  /** Which failure of the hash function, at which of its calls, becomes the result. */
  lemma FailuresArePassedOn(sha: Sha, key: bytes, data: bytes)
    ensures key == [] ==> Mac(sha, key, data) == Failure(InvalidParameter)
    ensures |key| > 64 && sha(key).Failure? ==> Mac(sha, key, data) == Failure(sha(key).error)
    ensures |key| > 64 && sha(key).Success? && |sha(key).value| != 32 ==>
              Mac(sha, key, data) == Failure(Sha256CalculationFail)
    ensures 0 < |key| <= 64 && sha(Inner(key, data)).Failure? ==>
              Mac(sha, key, data) == Failure(sha(Inner(key, data)).error)
    ensures 0 < |key| <= 64 && sha(Inner(key, data)).Success? && |sha(Inner(key, data)).value| != 32 ==>
              Mac(sha, key, data) == Failure(Sha256CalculationFail)
    ensures 0 < |key| <= 64 && sha(Inner(key, data)).Success? && |sha(Inner(key, data)).value| == 32 ==>
              var text := Outer(key, sha(Inner(key, data)).value);
              && (sha(text).Failure? ==> Mac(sha, key, data) == Failure(sha(text).error))
              && (sha(text).Success? && |sha(text).value| != 32 ==>
                    Mac(sha, key, data) == Failure(Sha256CalculationFail))
  {
  }

  /** A long key is equivalent to its hash, and a short one to itself with zeros appended. */
  lemma EquivalentKeys(sha: Sha, key: bytes, data: bytes, n: nat)
    requires key != []
    ensures |key| > 64 && Digest(sha, key).Success? ==> Mac(sha, key, data) == Mac(sha, Digest(sha, key).value, data)
    ensures |key| + n <= 64 ==> Mac(sha, key + Zeros(n), data) == Mac(sha, key, data)
  {
    if |key| + n <= 64 {
      assert key + Zeros(n) + Zeros(64 - |key| - n) == key + Zeros(64 - |key|);
      assert BlockKey(key + Zeros(n)) == BlockKey(key);
    }
  }

  // ---------- the algorithm ----------

  /** Fills the first block of both buffers with the key, padded and combined with the two pads. */
  method PadKey(key: bytes, ipad: array<byte>, opad: array<byte>)
    requires |key| <= MAXIMUM_KEY_SIZE && ipad != opad
    requires ipad.Length >= MAXIMUM_KEY_SIZE && opad.Length >= MAXIMUM_KEY_SIZE
    modifies ipad, opad
    ensures ipad[..MAXIMUM_KEY_SIZE] == XorAll(BlockKey(key), IPAD)
    ensures opad[..MAXIMUM_KEY_SIZE] == XorAll(BlockKey(key), OPAD)
  {
    var index := 0;
    while index < |key|
      invariant 0 <= index <= |key|
      invariant forall i :: 0 <= i < index ==> ipad[i] == Xor(key[i], IPAD) && opad[i] == Xor(key[i], OPAD)
    {
      ipad[index] := Xor(key[index], IPAD);
      opad[index] := Xor(key[index], OPAD);
      index := index + 1;
    }
    XorZero(IPAD);
    XorZero(OPAD);
    while index < MAXIMUM_KEY_SIZE
      invariant |key| <= index <= MAXIMUM_KEY_SIZE
      invariant forall i :: 0 <= i < index ==>
                  ipad[i] == Xor(BlockKey(key)[i], IPAD) && opad[i] == Xor(BlockKey(key)[i], OPAD)
    {
      ipad[index] := IPAD;
      opad[index] := OPAD;
      index := index + 1;
    }
  }

  method CopyTo(buffer: array<byte>, at: nat, source: bytes)
    requires at + |source| == buffer.Length
    modifies buffer
    ensures buffer[..] == old(buffer[..at]) + source
  {
    forall i | 0 <= i < |source| {
      buffer[at + i] := source[i];
    }
  }

  method HmacSha256(sha: Sha, data: bytes, key: bytes) returns (result: Result<bytes>)
    ensures result == Mac(sha, key, data)
  {
    hide Xor, XorAll, BlockKey;
    if key == [] {
      return Failure(InvalidParameter);
    }
    var local := key;
    if |key| > MAXIMUM_KEY_SIZE {
      var resized := sha(key);
      if resized.Failure? {
        return Failure(resized.error);
      }
      if |resized.value| != SHA256_SIZE {
        return Failure(Sha256CalculationFail);
      }
      local := resized.value;
    }
    var ipad := new byte[MAXIMUM_KEY_SIZE + |data|];
    var opad := new byte[MAXIMUM_KEY_SIZE + SHA256_SIZE];
    PadKey(local, ipad, opad);
    CopyTo(ipad, MAXIMUM_KEY_SIZE, data);
    var digest := sha(ipad[..]);
    if digest.Failure? {
      return Failure(digest.error);
    }
    if |digest.value| != SHA256_SIZE {
      return Failure(Sha256CalculationFail);
    }
    CopyTo(opad, MAXIMUM_KEY_SIZE, digest.value);
    result := sha(opad[..]);
    if result.Success? && |result.value| != SHA256_SIZE {
      return Failure(Sha256CalculationFail);
    }
  }
}

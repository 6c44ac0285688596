/**
 The construction over a fixed block cipher: continuous CBC (section 6.2 of NIST SP 800-38A), key
 stretching and key wrapping. Cipher, hash and authenticator are parameters; the only law assumed
 of them is that decryption undoes encryption.
 */
module Crypto {
  import opened Basics

  type Key = k: Bytes | |k| == 32 witness seq(32, _ => 0)

  datatype Primitives = Primitives(
    encrypt: (Key, Block) -> Block,
    decrypt: (Key, Block) -> Block,
    sha256: Bytes -> Key,
    hmac: (Key, Bytes) -> Key)
  {
    ghost predicate Inverse() {
      forall k: Key, b: Block :: decrypt(k, encrypt(k, b)) == b
    }
  }

  // ---------------------------------------------------------------- exclusive or

  function XorBits(a: nat, b: nat, bits: nat): nat {
    if bits == 0 then 0 else (if a % 2 != b % 2 then 1 else 0) + 2 * XorBits(a / 2, b / 2, bits - 1)
  }

  function Power2(n: nat): (power: nat)
    ensures power > 0
  {
    if n == 0 then 1 else 2 * Power2(n - 1)
  }

  lemma {:induction false} XorBitsBound(a: nat, b: nat, bits: nat)
    ensures XorBits(a, b, bits) < Power2(bits)
  {
    if bits > 0 {
      XorBitsBound(a / 2, b / 2, bits - 1);
    }
  }

  lemma {:induction false} XorBitsInvolution(a: nat, b: nat, bits: nat)
    requires a < Power2(bits)
    ensures XorBits(XorBits(a, b, bits), b, bits) == a
  {
    if bits > 0 {
      XorBitsInvolution(a / 2, b / 2, bits - 1);
      var x := XorBits(a, b, bits);
      assert x / 2 == XorBits(a / 2, b / 2, bits - 1);
    }
  }

  lemma Power2Of8()
    ensures Power2(8) == 256
  {
    assert Power2(4) == 16;
  }

  function XorByte(a: Byte, b: Byte): (x: Byte)
    ensures XorBits(x, b, 8) == a
  {
    XorBitsBound(a, b, 8);
    Power2Of8();
    XorBitsInvolution(a, b, 8);
    XorBits(a, b, 8)
  }

  function Xor(a: Block, b: Block): Block {
    seq(BLOCK_BYTES, i requires 0 <= i < BLOCK_BYTES => XorByte(a[i], b[i]))
  }

  lemma XorInvolution(a: Block, b: Block)
    ensures Xor(Xor(a, b), b) == a
  {
    hide XorBits;
  }

  // ---------------------------------------------------------------- what exclusive or means

  /** The bit of weight 2^k. */
  predicate Bit(n: nat, k: nat) {
    n / Power2(k) % 2 == 1
  }

  lemma MultipleBeyond(m: int, d: nat)
    requires d > 0
    ensures m >= 1 ==> m * d >= d
    ensures m <= -1 ==> m * d + d <= 0
  {
    if m >= 1 {
      assert (m - 1) * d >= 0;
    } else if m <= -1 {
      assert (-m - 1) * d >= 0;
    }
  }

  lemma QuotientIs(n: nat, d: nat, q: nat, r: nat)
    requires r < d && n == q * d + r
    ensures n / d == q
  {
    var e: int, s: int := n / d, n % d;
    assert n == e * d + s;
    assert (e - q) * d == e * d - q * d;
    MultipleBeyond(e - q, d);
  }

  /** Every higher bit of a number is the next lower bit of its half. */
  lemma BitOfHalf(n: nat, k: nat)
    requires k > 0
    ensures Bit(n, k) <==> Bit(n / 2, k - 1)
  {
    var power := Power2(k - 1);
    var q, r := n / 2 / power, n / 2 % power;
    assert q * (2 * power) == 2 * (q * power);
    QuotientIs(n, 2 * power, q, 2 * r + n % 2);
  }

  /** A bit of the result is set exactly when one of the two bits is. */
  lemma {:induction false} XorBitsMeaning(a: nat, b: nat, bits: nat, k: nat)
    requires k < bits
    ensures Bit(XorBits(a, b, bits), k) <==> Bit(a, k) != Bit(b, k)
  {
    if k > 0 {
      hide Bit;
      var x := XorBits(a, b, bits);
      assert x / 2 == XorBits(a / 2, b / 2, bits - 1);
      XorBitsMeaning(a / 2, b / 2, bits - 1, k - 1);
      BitOfHalf(a, k);
      BitOfHalf(b, k);
      BitOfHalf(x, k);
    }
  }

  lemma {:induction false} XorBitsSymmetric(a: nat, b: nat, bits: nat)
    ensures XorBits(a, b, bits) == XorBits(b, a, bits)
  {
    if bits > 0 {
      XorBitsSymmetric(a / 2, b / 2, bits - 1);
    }
  }

  lemma {:induction false} XorBitsZero(a: nat, bits: nat)
    requires a < Power2(bits)
    ensures XorBits(a, 0, bits) == a
  {
    if bits > 0 {
      XorBitsZero(a / 2, bits - 1);
    }
  }

  lemma {:induction false} XorBitsEqual(a: nat, b: nat, bits: nat)
    requires a < Power2(bits) && b < Power2(bits)
    ensures XorBits(a, b, bits) == 0 <==> a == b
  {
    if bits > 0 {
      XorBitsEqual(a / 2, b / 2, bits - 1);
    }
  }

  lemma XorByteLaws(a: Byte, b: Byte)
    ensures forall k: nat :: k < 8 ==> (Bit(XorByte(a, b), k) <==> Bit(a, k) != Bit(b, k))
    ensures XorByte(a, b) == XorByte(b, a) && XorByte(a, 0) == a
    ensures XorByte(a, b) == 0 <==> a == b
  {
    hide Bit, XorBits;
    Power2Of8();
    XorBitsSymmetric(a, b, 8);
    XorBitsZero(a, 8);
    XorBitsEqual(a, b, 8);
    forall k: nat | k < 8
      ensures Bit(XorByte(a, b), k) <==> Bit(a, k) != Bit(b, k)
    {
      XorBitsMeaning(a, b, 8, k);
    }
  }

  const ZERO_BLOCK: Block := seq(BLOCK_BYTES, _ => 0)

  /**
   Exclusive or of blocks: bit by bit, symmetric, with the zero block as unit, and zero only for equal
   blocks.
   */
  lemma XorLaws(a: Block, b: Block)
    ensures forall i: nat, k: nat :: i < BLOCK_BYTES && k < 8 ==>
              (Bit(Xor(a, b)[i], k) <==> Bit(a[i], k) != Bit(b[i], k))
    ensures Xor(a, b) == Xor(b, a) && Xor(a, ZERO_BLOCK) == a
    ensures Xor(a, b) == ZERO_BLOCK <==> a == b
  {
    hide Bit, XorByte;
    forall i: nat | i < BLOCK_BYTES
      ensures forall k: nat :: k < 8 ==> (Bit(Xor(a, b)[i], k) <==> Bit(a[i], k) != Bit(b[i], k))
      ensures Xor(a, b)[i] == Xor(b, a)[i] && Xor(a, ZERO_BLOCK)[i] == a[i]
      ensures Xor(a, b)[i] == 0 <==> a[i] == b[i]
    {
      XorByteLaws(a[i], b[i]);
    }
    assert a == b ==> Xor(a, b) == ZERO_BLOCK;
    assert Xor(a, b) == ZERO_BLOCK ==> forall i :: 0 <= i < BLOCK_BYTES ==> Xor(a, b)[i] == 0;
  }

  lemma XorCancels(block: Block, a: Block, b: Block)
    requires Xor(block, a) == Xor(block, b)
    ensures a == b
  {
    hide Xor;
    XorLaws(block, a);
    XorLaws(block, b);
    XorInvolution(a, block);
    XorInvolution(b, block);
  }

  /** Under a cipher that can be undone, one block encrypts differently after different chaining values. */
  lemma ChainingMatters(p: Primitives, key: Key, block: Block, a: Block, b: Block)
    requires p.Inverse() && a != b
    ensures p.encrypt(key, Xor(block, a)) != p.encrypt(key, Xor(block, b))
  {
    hide Xor;
    if p.encrypt(key, Xor(block, a)) == p.encrypt(key, Xor(block, b)) {
      assert p.decrypt(key, p.encrypt(key, Xor(block, a))) == Xor(block, a);
      assert p.decrypt(key, p.encrypt(key, Xor(block, b))) == Xor(block, b);
      XorCancels(block, a, b);
    }
  }

  /** The byte loop of both transforms. */
  method MixBlocks(block: Block, previous: Block) returns (mixed: Block)
    ensures mixed == Xor(block, previous)
  {
    hide XorByte;
    var bytes: Bytes := [];
    var index := 0;
    while index < BLOCK_BYTES
      invariant 0 <= index <= BLOCK_BYTES && |bytes| == index
      invariant forall i :: 0 <= i < index ==> bytes[i] == XorByte(block[i], previous[i])
    {
      bytes := bytes + [XorByte(block[index], previous[index])];
      index := index + 1;
    }
    mixed := bytes;
  }

  // ---------------------------------------------------------------- CBC over whole streams

  predicate Aligned(data: Bytes) {
    |data| % BLOCK_BYTES == 0
  }

  /** The chaining value after a stretch of ciphertext. */
  function Chain(iv: Block, cipher: Bytes): Block
    requires Aligned(cipher)
  {
    if cipher == [] then iv else cipher[|cipher| - BLOCK_BYTES..]
  }

  function CbcEncrypt(p: Primitives, key: Key, iv: Block, plain: Bytes): (cipher: Bytes)
    requires Aligned(plain)
    ensures |cipher| == |plain| && Aligned(cipher)
    decreases |plain|
  {
    if plain == [] then []
    else
      var first := p.encrypt(key, Xor(plain[..BLOCK_BYTES], iv));
      first + CbcEncrypt(p, key, first, plain[BLOCK_BYTES..])
  }

  function CbcDecrypt(p: Primitives, key: Key, iv: Block, cipher: Bytes): (plain: Bytes)
    requires Aligned(cipher)
    ensures |plain| == |cipher| && Aligned(plain)
    decreases |cipher|
  {
    if cipher == [] then []
    else
      Xor(p.decrypt(key, cipher[..BLOCK_BYTES]), iv) + CbcDecrypt(p, key, cipher[..BLOCK_BYTES], cipher[BLOCK_BYTES..])
  }

  lemma {:induction false} CbcRoundTrip(p: Primitives, key: Key, iv: Block, plain: Bytes)
    requires p.Inverse() && Aligned(plain)
    ensures CbcDecrypt(p, key, iv, CbcEncrypt(p, key, iv, plain)) == plain
    decreases |plain|
  {
    hide Xor, CbcEncrypt, CbcDecrypt, Chain;
    if plain == [] {
      CbcNothing(p, key, iv);
    } else {
      CbcEncryptStep(p, key, iv, plain);
      var mixed: Block := Xor(plain[..BLOCK_BYTES], iv);
      var first := p.encrypt(key, mixed);
      var cipher := CbcEncrypt(p, key, iv, plain);
      CbcDecryptStep(p, key, iv, cipher);
      assert cipher[..BLOCK_BYTES] == first && cipher[BLOCK_BYTES..] == CbcEncrypt(p, key, first, plain[BLOCK_BYTES..]);
      XorInvolution(plain[..BLOCK_BYTES], iv);
      CbcRoundTrip(p, key, first, plain[BLOCK_BYTES..]);
      assert plain == plain[..BLOCK_BYTES] + plain[BLOCK_BYTES..];
    }
  }

  lemma AlignedParts(left: Bytes, right: Bytes)
    requires Aligned(left) && Aligned(right)
    ensures Aligned(left + right)
    ensures left != [] ==> |left| >= BLOCK_BYTES && Aligned(left[BLOCK_BYTES..])
  {
  }

  /** The chain after a nonempty stretch does not depend on where it started. */
  lemma ChainTail(iv: Block, data: Bytes)
    requires Aligned(data) && data != []
    ensures |data| >= BLOCK_BYTES && Aligned(data[BLOCK_BYTES..])
    ensures Chain(iv, data) == Chain(data[..BLOCK_BYTES], data[BLOCK_BYTES..])
  {
  }

  lemma SplitAppend(left: Bytes, right: Bytes)
    requires |left| >= BLOCK_BYTES
    ensures (left + right)[..BLOCK_BYTES] == left[..BLOCK_BYTES]
    ensures (left + right)[BLOCK_BYTES..] == left[BLOCK_BYTES..] + right
  {
  }

  lemma AppendNothing(right: Bytes)
    ensures [] + right == right
  {
  }

  lemma CbcEncryptStep(p: Primitives, key: Key, iv: Block, plain: Bytes)
    requires Aligned(plain) && plain != []
    ensures |plain| >= BLOCK_BYTES && Aligned(plain[BLOCK_BYTES..])
    ensures var first := p.encrypt(key, Xor(plain[..BLOCK_BYTES], iv));
            && CbcEncrypt(p, key, iv, plain) == first + CbcEncrypt(p, key, first, plain[BLOCK_BYTES..])
            && Chain(iv, CbcEncrypt(p, key, iv, plain)) == Chain(first, CbcEncrypt(p, key, first, plain[BLOCK_BYTES..]))
  {
    hide Xor;
  }

  lemma CbcDecryptStep(p: Primitives, key: Key, iv: Block, cipher: Bytes)
    requires Aligned(cipher) && cipher != []
    ensures |cipher| >= BLOCK_BYTES && Aligned(cipher[BLOCK_BYTES..])
    ensures CbcDecrypt(p, key, iv, cipher)
         == Xor(p.decrypt(key, cipher[..BLOCK_BYTES]), iv)
             + CbcDecrypt(p, key, cipher[..BLOCK_BYTES], cipher[BLOCK_BYTES..])
  {
    hide Xor;
  }

  lemma CbcNothing(p: Primitives, key: Key, iv: Block)
    ensures CbcEncrypt(p, key, iv, []) == [] && CbcDecrypt(p, key, iv, []) == [] && Chain(iv, []) == iv
  {
  }

  function BlockAt(data: Bytes, j: nat): Block
    requires (j + 1) * BLOCK_BYTES <= |data|
  {
    data[j * BLOCK_BYTES..(j + 1) * BLOCK_BYTES]
  }

  lemma BlockOfTail(data: Bytes, j: nat)
    requires (j + 2) * BLOCK_BYTES <= |data|
    ensures BlockAt(data[BLOCK_BYTES..], j) == BlockAt(data, j + 1)
  {
  }

  /** Each block is encrypted together with the ciphertext block before it, the first with the initial value. */
  lemma {:induction false} CbcEncryptBlock(p: Primitives, key: Key, iv: Block, plain: Bytes, j: nat)
    requires Aligned(plain) && (j + 1) * BLOCK_BYTES <= |plain|
    ensures var cipher := CbcEncrypt(p, key, iv, plain);
            BlockAt(cipher, j)
              == p.encrypt(key, Xor(BlockAt(plain, j), if j == 0 then iv else BlockAt(cipher, j - 1)))
    decreases j
  {
    hide Xor, CbcEncrypt;
    CbcEncryptStep(p, key, iv, plain);
    var first: Block := p.encrypt(key, Xor(plain[..BLOCK_BYTES], iv));
    var cipher := CbcEncrypt(p, key, iv, plain);
    assert cipher[..BLOCK_BYTES] == first && cipher[BLOCK_BYTES..] == CbcEncrypt(p, key, first, plain[BLOCK_BYTES..]);
    if j > 0 {
      CbcEncryptBlock(p, key, first, plain[BLOCK_BYTES..], j - 1);
      BlockOfTail(plain, j - 1);
      BlockOfTail(cipher, j - 1);
      if j > 1 {
        BlockOfTail(cipher, j - 2);
      }
    }
  }

  /** Different initial values leave no ciphertext block of a stream the same. */
  lemma {:induction false} StartMatters(p: Primitives, key: Key, a: Block, b: Block, plain: Bytes, j: nat)
    requires p.Inverse() && a != b && Aligned(plain) && (j + 1) * BLOCK_BYTES <= |plain|
    ensures BlockAt(CbcEncrypt(p, key, a, plain), j) != BlockAt(CbcEncrypt(p, key, b, plain), j)
    decreases j
  {
    hide Xor, CbcEncrypt, BlockAt;
    CbcEncryptBlock(p, key, a, plain, j);
    CbcEncryptBlock(p, key, b, plain, j);
    if j == 0 {
      ChainingMatters(p, key, BlockAt(plain, j), a, b);
    } else {
      StartMatters(p, key, a, b, plain, j - 1);
      ChainingMatters(p, key, BlockAt(plain, j), BlockAt(CbcEncrypt(p, key, a, plain), j - 1),
                      BlockAt(CbcEncrypt(p, key, b, plain), j - 1));
    }
  }

  /** The stream is continuous: encrypting in two parts chains through the last block of the first. */
  lemma {:induction false} CbcEncryptAppend(p: Primitives, key: Key, iv: Block, left: Bytes, right: Bytes)
    requires Aligned(left) && Aligned(right)
    ensures Aligned(left + right)
    ensures CbcEncrypt(p, key, iv, left + right)
         == CbcEncrypt(p, key, iv, left) + CbcEncrypt(p, key, Chain(iv, CbcEncrypt(p, key, iv, left)), right)
    decreases |left|
  {
    hide Xor, Aligned, CbcEncrypt, Chain;
    AlignedParts(left, right);
    if left == [] {
      AppendNothing(right);
      CbcNothing(p, key, iv);
      AppendNothing(CbcEncrypt(p, key, iv, right));
    } else {
      var first: Block := p.encrypt(key, Xor(left[..BLOCK_BYTES], iv));
      SplitAppend(left, right);
      CbcEncryptStep(p, key, iv, left);
      CbcEncryptStep(p, key, iv, left + right);
      CbcEncryptAppend(p, key, first, left[BLOCK_BYTES..], right);
      var tail := CbcEncrypt(p, key, first, left[BLOCK_BYTES..]);
      Reassociated(first, tail, CbcEncrypt(p, key, Chain(first, tail), right));
    }
  }

  lemma Reassociated(a: Bytes, b: Bytes, c: Bytes)
    ensures a + (b + c) == a + b + c
  {
  }

  /** Decryption may start anywhere, given the ciphertext block before. */
  lemma {:induction false} CbcDecryptAppend(p: Primitives, key: Key, iv: Block, left: Bytes, right: Bytes)
    requires Aligned(left) && Aligned(right)
    ensures Aligned(left + right)
    ensures CbcDecrypt(p, key, iv, left + right)
         == CbcDecrypt(p, key, iv, left) + CbcDecrypt(p, key, Chain(iv, left), right)
    decreases |left|
  {
    hide Xor, Aligned, CbcDecrypt, Chain;
    AlignedParts(left, right);
    if left == [] {
      AppendNothing(right);
      CbcNothing(p, key, iv);
      AppendNothing(CbcDecrypt(p, key, iv, right));
    } else {
      var next: Block := left[..BLOCK_BYTES];
      SplitAppend(left, right);
      CbcDecryptStep(p, key, iv, left);
      CbcDecryptStep(p, key, iv, left + right);
      ChainTail(iv, left);
      CbcDecryptAppend(p, key, next, left[BLOCK_BYTES..], right);
      Reassociated(Xor(p.decrypt(key, next), iv), CbcDecrypt(p, key, next, left[BLOCK_BYTES..]),
                   CbcDecrypt(p, key, Chain(iv, left), right));
    }
  }

  /**
   Any aligned window of the plaintext is the decryption of the same window of ciphertext from the
   block before it.
   */
  lemma CbcWindow(p: Primitives, key: Key, iv: Block, cipher: Bytes, from: nat, to: nat)
    requires Aligned(cipher) && from <= to <= |cipher| && from % BLOCK_BYTES == 0 && to % BLOCK_BYTES == 0
    ensures Aligned(cipher[..from]) && Aligned(cipher[from..to])
    ensures CbcDecrypt(p, key, iv, cipher)[from..to] == CbcDecrypt(p, key, Chain(iv, cipher[..from]), cipher[from..to])
  {
    hide CbcDecrypt, Chain;
    var head, window, tail := cipher[..from], cipher[from..to], cipher[to..];
    assert cipher == head + (window + tail);
    CbcDecryptAppend(p, key, iv, head, window + tail);
    CbcDecryptAppend(p, key, Chain(iv, head), window, tail);
  }

  // ---------------------------------------------------------------- the block transformers

  class CbcEncryptor {
    const p: Primitives
    const key: Key
    var previous: Block

    constructor (p: Primitives, key: Key, iv: Block)
      ensures this.p == p && this.key == key && previous == iv
    {
      this.p, this.key, this.previous := p, key, iv;
    }

    method Transform(block: Block) returns (encrypted: Block)
      modifies this
      ensures encrypted == p.encrypt(key, Xor(block, old(previous))) && previous == encrypted
      ensures encrypted == CbcEncrypt(p, key, old(previous), block)
      ensures p.Inverse() ==> forall other: Block :: other != old(previous) ==>
                encrypted != p.encrypt(key, Xor(block, other))
    {
      if p.Inverse() {
        forall other: Block | other != previous
          ensures p.encrypt(key, Xor(block, previous)) != p.encrypt(key, Xor(block, other))
        {
          ChainingMatters(p, key, block, previous, other);
        }
      }
      var mixed := MixBlocks(block, previous);
      encrypted := p.encrypt(key, mixed);
      assert block[..BLOCK_BYTES] == block && block[BLOCK_BYTES..] == [];
      assert CbcEncrypt(p, key, encrypted, []) == [];
      previous := encrypted;
    }
  }

  class CbcDecryptor {
    const p: Primitives
    const key: Key
    var previous: Block

    constructor (p: Primitives, key: Key, iv: Block)
      ensures this.p == p && this.key == key && previous == iv
    {
      this.p, this.key, this.previous := p, key, iv;
    }

    method Transform(block: Block) returns (plaintext: Block)
      modifies this
      ensures plaintext == Xor(p.decrypt(key, block), old(previous)) && previous == block
      ensures plaintext == CbcDecrypt(p, key, old(previous), block)
    {
      plaintext := MixBlocks(p.decrypt(key, block), previous);
      assert block[..BLOCK_BYTES] == block && block[BLOCK_BYTES..] == [];
      assert CbcDecrypt(p, key, block, []) == [];
      previous := block;
    }
  }

  // ---------------------------------------------------------------- stretching and wrapping

  function Iterated(p: Primitives, state: Key, times: nat): Key {
    if times == 0 then state else p.sha256(Iterated(p, state, times - 1))
  }

  function Stretched(p: Primitives, passphrase: Bytes, salt: Bytes, iterations: nat): Key {
    Iterated(p, p.sha256(passphrase + salt), iterations)
  }

  /** Successive hashes from a first state. */
  predicate HashChain(p: Primitives, trace: seq<Key>, first: Key, times: nat) {
    && |trace| == times + 1 && trace[0] == first
    && forall i :: 0 <= i < times ==> trace[i + 1] == p.sha256(trace[i])
  }

  method StretchPassphrase(p: Primitives, passphrase: Bytes, salt: Bytes, iterations: nat, maxIterations: nat)
    returns (result: Result<Key>)
    ensures result == if 1 <= iterations <= maxIterations then Ok(Stretched(p, passphrase, salt, iterations))
                      else Err(MaxIterations)
    ensures result.Ok? ==> exists trace: seq<Key> :: HashChain(p, trace, p.sha256(passphrase + salt), iterations)
                                                     && result.value == trace[iterations]
  {
    if !(1 <= iterations <= maxIterations) {
      return Err(MaxIterations);
    }
    var stretched := p.sha256(passphrase + salt);
    var done := 0;
    ghost var trace := [stretched];
    while done < iterations
      invariant 0 <= done <= iterations
      invariant stretched == Iterated(p, p.sha256(passphrase + salt), done)
      invariant HashChain(p, trace, p.sha256(passphrase + salt), done) && trace[done] == stretched
    {
      stretched := p.sha256(stretched);
      done := done + 1;
      trace := trace + [stretched];
    }
    return Ok(stretched);
  }

  const WRAPPED_BYTES: nat := 64

  type Wrapped = w: Bytes | |w| == WRAPPED_BYTES witness seq(WRAPPED_BYTES, _ => 0)

  datatype VaultKeys = VaultKeys(content: Key, authentication: Key)

  function Half(k: Key, second: bool): Block {
    if second then k[16..] else k[..16]
  }

  /** The four wrapped blocks in order: both halves of the content key, then both of the authentication key. */
  function WrappedKeys(p: Primitives, derived: Key, keys: VaultKeys): Wrapped {
    p.encrypt(derived, Half(keys.content, false)) + p.encrypt(derived, Half(keys.content, true))
    + p.encrypt(derived, Half(keys.authentication, false)) + p.encrypt(derived, Half(keys.authentication, true))
  }

  function UnwrappedKeys(p: Primitives, derived: Key, wrapped: Wrapped): VaultKeys {
    VaultKeys(
      p.decrypt(derived, wrapped[0..16]) + p.decrypt(derived, wrapped[16..32]),
      p.decrypt(derived, wrapped[32..48]) + p.decrypt(derived, wrapped[48..64]))
  }

  /** Unwrapping under the same derived key restores both keys. */
  lemma UnwrapUndoesWrap(p: Primitives, derived: Key, keys: VaultKeys)
    requires p.Inverse()
    ensures UnwrappedKeys(p, derived, WrappedKeys(p, derived, keys)) == keys
  {
    var wrapped := WrappedKeys(p, derived, keys);
    assert wrapped[0..16] == p.encrypt(derived, Half(keys.content, false));
    assert wrapped[16..32] == p.encrypt(derived, Half(keys.content, true));
    assert wrapped[32..48] == p.encrypt(derived, Half(keys.authentication, false));
    assert wrapped[48..64] == p.encrypt(derived, Half(keys.authentication, true));
    assert Half(keys.content, false) + Half(keys.content, true) == keys.content;
    assert Half(keys.authentication, false) + Half(keys.authentication, true) == keys.authentication;
  }

  method WrapVaultKeys(p: Primitives, derived: Key, keys: VaultKeys) returns (wrapped: Wrapped)
    ensures wrapped == WrappedKeys(p, derived, keys)
    ensures wrapped[0..16] == p.encrypt(derived, keys.content[..16])
    ensures wrapped[16..32] == p.encrypt(derived, keys.content[16..])
    ensures wrapped[32..48] == p.encrypt(derived, keys.authentication[..16])
    ensures wrapped[48..64] == p.encrypt(derived, keys.authentication[16..])
  {
    var bytes := new Byte[WRAPPED_BYTES](_ => 0);
    var offset := 0;
    var owners := [keys.content, keys.authentication];
    ghost var blocks: seq<Bytes> := [
      p.encrypt(derived, Half(keys.content, false)), p.encrypt(derived, Half(keys.content, true)),
      p.encrypt(derived, Half(keys.authentication, false)), p.encrypt(derived, Half(keys.authentication, true))];
    while offset < WRAPPED_BYTES
      invariant 0 <= offset <= WRAPPED_BYTES && offset % BLOCK_BYTES == 0
      invariant forall k :: 0 <= k < offset ==> bytes[k] == blocks[k / BLOCK_BYTES][k % BLOCK_BYTES]
      decreases WRAPPED_BYTES - offset
    {
      var source := offset % 32;
      var block: Block := owners[offset / 32][source..source + BLOCK_BYTES];
      var encrypted := p.encrypt(derived, block);
      assert block == Half(owners[offset / 32], source == 16);
      assert encrypted == blocks[offset / BLOCK_BYTES];
      CopyInto(bytes, offset, encrypted);
      offset := offset + BLOCK_BYTES;
    }
    wrapped := bytes[..];
  }

  /** Store one block into a larger buffer. */
  method CopyInto(target: array<Byte>, offset: nat, block: Block)
    requires offset + BLOCK_BYTES <= target.Length
    modifies target
    ensures forall k :: offset <= k < offset + BLOCK_BYTES ==> target[k] == block[k - offset]
    ensures forall k :: 0 <= k < target.Length && !(offset <= k < offset + BLOCK_BYTES) ==> target[k] == old(target[k])
  {
    forall k | offset <= k < offset + BLOCK_BYTES {
      target[k] := block[k - offset];
    }
  }

  method UnwrapVaultKeys(p: Primitives, derived: Key, wrapped: Wrapped) returns (keys: VaultKeys)
    ensures keys == UnwrappedKeys(p, derived, wrapped)
    ensures keys.content == p.decrypt(derived, wrapped[0..16]) + p.decrypt(derived, wrapped[16..32])
    ensures keys.authentication == p.decrypt(derived, wrapped[32..48]) + p.decrypt(derived, wrapped[48..64])
  {
    var content := new Byte[32](_ => 0);
    var authentication := new Byte[32](_ => 0);
    ghost var halves: seq<Bytes> := [p.decrypt(derived, wrapped[0..16]), p.decrypt(derived, wrapped[16..32]),
                         p.decrypt(derived, wrapped[32..48]), p.decrypt(derived, wrapped[48..64])];
    var block := 0;
    while block < 4
      invariant 0 <= block <= 4
      invariant forall k :: 0 <= k < 32 && k < 16 * block ==> content[k] == halves[k / 16][k % 16]
      invariant forall k :: 0 <= k < 32 && k < 16 * block - 32 ==> authentication[k] == halves[2 + k / 16][k % 16]
    {
      var decrypted := p.decrypt(derived, wrapped[16 * block..16 * block + 16]);
      assert decrypted == halves[block];
      var destination := if block < 2 then content else authentication;
      CopyInto(destination, 16 * (block % 2), decrypted);
      block := block + 1;
    }
    assert content[..] == halves[0] + halves[1];
    assert authentication[..] == halves[2] + halves[3];
    keys := VaultKeys(content[..], authentication[..]);
  }
}

/** Shared value types: bytes, blocks, optional values and the closed error taxonomy. */
module Basics {

  type Byte = x: int | 0 <= x < 256
  type Bytes = seq<Byte>

  const BLOCK_BYTES: nat := 16
  type Block = b: Bytes | |b| == BLOCK_BYTES witness seq(BLOCK_BYTES, _ => 0)

  datatype Option<+T> = None | Some(value: T) {
    predicate IsFailure() { None? }

    function PropagateFailure<U>(): Option<U>
      requires None?
    {
      None
    }

    function Extract(): T
      requires Some?
    {
      value
    }
  }

  /** The reasons the codec, the schema and the store report, one per refusal the callers can tell apart. */
  datatype VaultError =
    | InvalidEnvelope
    | UnexpectedEof
    | InvalidField
    | MissingMandatoryField
    | UnsupportedVersion
    | UnsupportedContent
    | PasswordCheckFailed
    | HmacMismatch
    | MaxIterations
    | MaxRecords
    | MaxFields
    | MaxDecodedText
    | MaxEncryptedFile
    | PreparationFailed
    | VerificationFailed

  /** Errors that depend only on the caller's resource budget, never on what the document says. */
  predicate IsResourceError(e: VaultError) {
    e.MaxIterations? || e.MaxRecords? || e.MaxFields? || e.MaxDecodedText? || e.MaxEncryptedFile?
  }

  datatype Result<+T> = Ok(value: T) | Err(error: VaultError) {
    predicate IsFailure() { Err? }

    function PropagateFailure<U>(): Result<U>
      requires Err?
    {
      Err(error)
    }

    function Extract(): T
      requires Ok?
    {
      value
    }
  }

  function Min(a: int, b: int): int {
    if a <= b then a else b
  }

  /** Concatenation of a sequence of sequences. */
  function Flatten<T>(parts: seq<seq<T>>): seq<T> {
    if parts == [] then [] else parts[0] + Flatten(parts[1..])
  }

  lemma {:induction false} FlattenAppend<T>(left: seq<seq<T>>, right: seq<seq<T>>)
    ensures Flatten(left + right) == Flatten(left) + Flatten(right)
  {
    if left == [] {
      assert left + right == right;
    } else {
      assert (left + right)[1..] == left[1..] + right;
      FlattenAppend(left[1..], right);
    }
  }

  lemma FlattenSnoc<T>(left: seq<seq<T>>, last: seq<T>)
    ensures Flatten(left + [last]) == Flatten(left) + last
  {
    FlattenAppend(left, [last]);
    assert Flatten([last]) == last;
  }

  /** Unsigned little-endian encoding in a fixed width. */
  function LittleEndian(n: nat, width: nat): (s: Bytes)
    ensures |s| == width
  {
    if width == 0 then [] else [n % 256] + LittleEndian(n / 256, width - 1)
  }

  function FromLittleEndian(s: Bytes): nat {
    if s == [] then 0 else s[0] + 256 * FromLittleEndian(s[1..])
  }

  function Pow256(width: nat): nat {
    if width == 0 then 1 else 256 * Pow256(width - 1)
  }

  lemma {:induction false} LittleEndianRoundTrip(n: nat, width: nat)
    requires n < Pow256(width)
    ensures FromLittleEndian(LittleEndian(n, width)) == n
  {
    if width > 0 {
      LittleEndianRoundTrip(n / 256, width - 1);
      assert LittleEndian(n, width)[1..] == LittleEndian(n / 256, width - 1);
    }
  }

  lemma {:induction false} LittleEndianInverse(s: Bytes)
    ensures FromLittleEndian(s) < Pow256(|s|)
    ensures LittleEndian(FromLittleEndian(s), |s|) == s
  {
    if s != [] {
      LittleEndianInverse(s[1..]);
    }
  }

  lemma Pow256Values()
    ensures Pow256(2) == 0x1_0000 && Pow256(4) == 0x1_0000_0000
  {
    assert Pow256(1) == 256;
    assert Pow256(3) == 0x100_0000;
  }
}

// Shared vocabulary: bytes, keys, hashes and the two failure-compatible result types.
module Basics {

  type byte = x: int | 0 <= x < 256
  type bytes = seq<byte>
  type u16 = x: int | 0 <= x < 0x1_0000
  type u32 = x: int | 0 <= x < 0x1_0000_0000
  type u64 = x: int | 0 <= x < 0x1_0000_0000_0000_0000
  type i64 = x: int | -0x8000_0000_0000_0000 <= x < 0x8000_0000_0000_0000

  function Zeros(n: nat): (r: bytes)
    ensures |r| == n
  {
    seq(n, _ => 0)
  }

  /** A Solana public key. */
  type Key = k: bytes | |k| == 32 witness Zeros(32)

  /** A SHA-256 digest. */
  type Hash = h: bytes | |h| == 32 witness Zeros(32)

  /** A compressed P-256 point: parity prefix and x coordinate. */
  type PublicKey = k: bytes | |k| == 33 witness Zeros(33)

  /** The outcome of an SDK call: `None` stands for a thrown error. */
  datatype Option<+T> = None | Some(value: T) {
    predicate IsFailure() { None? }
    function PropagateFailure<U>(): Option<U>
      requires None?
    { None }
    function Extract(): T
      requires Some?
    { value }
  }

  /** The errors of the on-chain program; `Panicked` stands for every aborting panic. */
  datatype ProgramError =
    | InvalidSlothashIndex
    | InvalidTruncatedSlot
    | ExpiredSlothash
    | MissingNonceSignature
    | CPINotAllowed
    | InvalidPrecompileId
    | InvalidNumPrecompileSignatures
    | InvalidSignatureIndex
    | ErrorDeserializingHeader
    | InvalidExtraVerificationDataArgs
    | InvalidExecutionArgs
    | SessionSignerNotASigner
    | InvalidSessionKey
    | SessionKeyExpired
    | InvalidSessionKeyExpiration
    | InvalidSignatureScheme
    | InvalidSignerExecutionScheme
    | P256RelyingPartTooLong
    | P256RelyingPartIncludeQuotes
    | P256RelyingPartyMismatch
    | P256ClientDataHashMismatch
    | P256AccountNotWritable
    | P256PublicKeyMismatch
    | P256UserNotPresent
    | NotEnoughAccountKeys
    | InvalidArgument
    | InvalidAccountOwner
    | InvalidAccountData
    | UnsupportedSysvar
    | InvalidInstructionData
    | InvokedProgramFailed
    | InvalidSignatureOffset
    | Panicked

  /** The outcome of a program call. */
  datatype Result<+T> = Ok(value: T) | Err(error: ProgramError) {
    predicate IsFailure() { Err? }
    function PropagateFailure<U>(): Result<U>
      requires Err?
    { Err(error) }
    function Extract(): T
      requires Ok?
    { value }
  }

  datatype Unit = Unit

  /** Two equal concatenations whose first parts are equally long agree part by part. */
  lemma Cut<T>(a: seq<T>, b: seq<T>, c: seq<T>, d: seq<T>)
    requires a + b == c + d
    requires |a| == |c|
    ensures a == c && b == d
  {
    assert a == (a + b)[..|a|];
    assert c == (c + d)[..|c|];
    assert b == (a + b)[|a|..];
    assert d == (c + d)[|c|..];
  }

  predicate ByteAt(b: bytes, offset: nat, part: bytes, i: nat) {
    offset + i < |b| && i < |part| && b[offset + i] == part[i]
  }

  /** `part` stands in `b` at `offset`. */
  ghost predicate At(b: bytes, offset: nat, part: bytes) {
    offset + |part| <= |b|
    && forall i: nat {:trigger ByteAt(b, offset, part, i)} :: i < |part| ==> ByteAt(b, offset, part, i)
  }

  /** What stands at a place is what the slice of that length holds. */
  lemma AtIsSlice(b: bytes, offset: nat, part: bytes)
    requires offset + |part| <= |b|
    ensures At(b, offset, part) <==> b[offset..offset + |part|] == part
  {
    var slice := b[offset..offset + |part|];
    if At(b, offset, part) {
      forall i: nat | i < |part| ensures slice[i] == part[i] { assert ByteAt(b, offset, part, i); }
    }
  }

  lemma AtFirst(b: bytes, offset: nat, part: bytes)
    requires |part| > 0 && At(b, offset, part)
    ensures b[offset] == part[0]
  {
    assert ByteAt(b, offset, part, 0);
  }

  lemma AtSameLength(b: bytes, offset: nat, x: bytes, y: bytes)
    requires At(b, offset, x) && At(b, offset, y)
    ensures |x| == |y| ==> x == y
  {
    AtIsSlice(b, offset, x);
    AtIsSlice(b, offset, y);
  }

  lemma AtWhole(b: bytes, part: bytes)
    requires |b| == |part|
    ensures At(b, 0, part) <==> b == part
  {
    AtIsSlice(b, 0, part);
    assert b[0..|part|] == b;
  }

  lemma AtParts(b: bytes, offset: nat, x: bytes, y: bytes)
    ensures At(b, offset, x + y) <==> At(b, offset, x) && At(b, offset + |x|, y)
  {
    var whole, next := x + y, offset + |x|;
    if At(b, offset, whole) {
      forall i: nat | i < |x| ensures ByteAt(b, offset, x, i) { assert ByteAt(b, offset, whole, i); }
      forall i: nat | i < |y| ensures ByteAt(b, next, y, i) {
        assert ByteAt(b, offset, whole, |x| + i);
      }
    } else if At(b, offset, x) && At(b, offset + |x|, y) {
      forall i: nat | i < |whole| ensures ByteAt(b, offset, whole, i) {
        if i < |x| { assert ByteAt(b, offset, x, i); } else { assert ByteAt(b, next, y, i - |x|); }
      }
    }
  }

  lemma AtMiddle(before: bytes, part: bytes, rest: bytes)
    ensures At(before + part + rest, |before|, part)
  {
    AtIsSlice(before + part + rest, |before|, part);
  }
}

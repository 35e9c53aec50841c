// The secp256r1 precompile instruction: the layout both SDKs write and the parser the program reads it with.
module Precompile {
  import opened Basics
  import opened Endian
  import opened Wire
  import opened WireExact
  import opened Der

  // ----- the program's parser

  /** An instruction of the running transaction; `beyond` is what the memory behind its data holds. */
  datatype TxInstruction = TxInstruction(programId: Key, data: bytes, beyond: nat -> byte)

  datatype SignaturePayload = SignaturePayload(signature: bytes, publicKey: bytes, message: bytes)

  const SIGNATURE_SIZE: nat := 64
  const PUBLIC_KEY_SIZE: nat := 33
  const OFFSETS_SIZE: nat := 14
  const DATA_START_OFFSET: nat := 2
  const INLINE: int := 0xffff

  function JoinBytes(lo: int, hi: int): int { lo + 256 * hi }

  function U16At(b: bytes, i: nat): (v: int)
    requires i + 1 < |b|
    ensures 0 <= v < 0x1_0000
  {
    JoinBytes(b[i], b[i + 1])
  }

  /** An instruction without data makes the parser panic. */
  function NumSignatures(data: bytes): Result<nat> {
    if data == [] then Err(Panicked) else Ok(data[0])
  }

  /** A slice of the precompile instruction itself, with bounds checks. */
  function GetDataSlice(data: bytes, offset: nat, size: nat): Result<bytes> {
    if offset + size <= |data| then Ok(data[offset..offset + size]) else Err(Panicked)
  }

  function RawByte(instruction: TxInstruction, i: nat): byte {
    if i < |instruction.data| then instruction.data[i] else instruction.beyond(i)
  }

  /** A slice of another instruction, taken by pointer without bounds checks. */
  function GetDataSliceRaw(instruction: TxInstruction, offset: nat, size: nat): (r: bytes)
    ensures |r| == size
    ensures forall k :: 0 <= k < size ==> r[k] == RawByte(instruction, offset + k)
  {
    seq<byte>(size, k requires 0 <= k < size => RawByte(instruction, offset + k))
  }

  /** Within an instruction's data the unchecked slice is the checked one, whatever lies behind. */
  lemma RawSliceWithin(instruction: TxInstruction, offset: nat, size: nat)
    requires offset + size <= |instruction.data|
    ensures Ok(GetDataSliceRaw(instruction, offset, size)) == GetDataSlice(instruction.data, offset, size)
  {
    assert GetDataSliceRaw(instruction, offset, size) == instruction.data[offset..offset + size];
  }

  /** A part of the payload: in the precompile instruction itself, or in the instruction of that index. */
  function GetPart(transaction: seq<TxInstruction>, data: bytes, index: int, offset: int, size: int): Result<bytes>
    requires index >= 0 && offset >= 0 && size >= 0
  {
    if index == INLINE then GetDataSlice(data, offset, size)
    else if index >= |transaction| then Err(InvalidSignatureOffset)
    else Ok(GetDataSliceRaw(transaction[index], offset, size))
  }

  function GetSignaturePayload(transaction: seq<TxInstruction>, data: bytes, index: nat): Result<SignaturePayload> {
    var count :- NumSignatures(data);
    if index >= count then Err(InvalidSignatureIndex)
    else
      var start := DATA_START_OFFSET + OFFSETS_SIZE * index;
      if start + OFFSETS_SIZE > |data| then Err(Panicked)
      else
        var signature :- GetPart(transaction, data, U16At(data, start + 2), U16At(data, start), SIGNATURE_SIZE);
        var publicKey :- GetPart(transaction, data, U16At(data, start + 6), U16At(data, start + 4), PUBLIC_KEY_SIZE);
        var message :- GetPart(transaction, data, U16At(data, start + 12), U16At(data, start + 8),
                               U16At(data, start + 10));
        Ok(SignaturePayload(signature, publicKey, message))
  }

  // ----- what the parser reads, byte by byte

  /** A part stands in the precompile instruction itself for index 65535, and otherwise in the instruction of that
      index, followed by whatever the memory behind holds. */
  ghost predicate PartStands(transaction: seq<TxInstruction>, data: bytes, index: int, offset: nat, part: bytes) {
    if index == 65535 then offset + |part| <= |data| && data[offset..offset + |part|] == part
    else
      0 <= index < |transaction|
      && forall k :: 0 <= k < |part| ==>
           part[k] == if offset + k < |transaction[index].data| then transaction[index].data[offset + k]
                      else transaction[index].beyond(offset + k)
  }

  /** The three parts stand where the fourteen bytes of offsets after the count and its padding say. */
  ghost predicate PayloadStands(transaction: seq<TxInstruction>, data: bytes, signature: bytes, publicKey: bytes,
                                message: bytes) {
    && |data| >= 16 && |signature| == 64 && |publicKey| == 33 && |message| == JoinBytes(data[12], data[13])
    && PartStands(transaction, data, JoinBytes(data[4], data[5]), JoinBytes(data[2], data[3]), signature)
    && PartStands(transaction, data, JoinBytes(data[8], data[9]), JoinBytes(data[6], data[7]), publicKey)
    && PartStands(transaction, data, JoinBytes(data[14], data[15]), JoinBytes(data[10], data[11]), message)
  }

  lemma PartExact(transaction: seq<TxInstruction>, data: bytes, index: nat, offset: nat, size: nat, part: bytes)
    ensures GetPart(transaction, data, index, offset, size) == Ok(part) <==>
              |part| == size && PartStands(transaction, data, index, offset, part)
  {
    if index != 65535 && index < |transaction| && |part| == size
       && PartStands(transaction, data, index, offset, part) {
      assert GetDataSliceRaw(transaction[index], offset, size) == part;
    }
  }

  /** The parser reads a payload if and only if its parts stand where the offsets say. */
  lemma PayloadExact(transaction: seq<TxInstruction>, data: bytes, signature: bytes, publicKey: bytes, message: bytes)
    requires data != [] && data[0] >= 1
    ensures GetSignaturePayload(transaction, data, 0) == Ok(SignaturePayload(signature, publicKey, message)) <==>
              PayloadStands(transaction, data, signature, publicKey, message)
  {
    if |data| >= 16 {
      PartExact(transaction, data, U16At(data, 4), U16At(data, 2), 64, signature);
      PartExact(transaction, data, U16At(data, 8), U16At(data, 6), 33, publicKey);
      PartExact(transaction, data, U16At(data, 14), U16At(data, 10), U16At(data, 12), message);
    }
  }

  // ----- the layout

  /** `[x & 0xff, (x >> 8) & 0xff]` */
  function LowHigh(x: nat): bytes { [x % 256, x / 256 % 256] }

  /** Sixteen bytes: one signature, then the offsets of the parts that follow. */
  function Header(messageLength: nat): (h: bytes)
    ensures |h| == 16
  {
    [1, 0, 49, 0, 0xff, 0xff, 16, 0, 0xff, 0xff, 113, 0] + LowHigh(messageLength) + [0xff, 0xff]
  }

  function PrecompileData(signature: bytes, publicKey: bytes, message: bytes): bytes {
    Header(|message|) + (publicKey + (signature + message))
  }

  lemma HeaderReads(data: bytes, rest: bytes, n: nat)
    requires n <= 0xffff && data == Header(n) + rest
    ensures |data| >= 16 && data[0] == 1
    ensures U16At(data, 2) == 49 && U16At(data, 6) == 16 && U16At(data, 10) == 113
    ensures U16At(data, 4) == INLINE && U16At(data, 8) == INLINE && U16At(data, 14) == INLINE
    ensures U16At(data, 12) == n
  {
    HeaderBytes(n);
    forall i | 0 <= i < 16 ensures data[i] == Header(n)[i] {}
  }

  lemma HeaderBytes(n: nat)
    requires n <= 0xffff
    ensures var h := Header(n);
            h[0] == 1 && h[2] == 49 && h[3] == 0 && h[4] == 0xff && h[5] == 0xff && h[6] == 16 && h[7] == 0
            && h[8] == 0xff && h[9] == 0xff && h[10] == 113 && h[11] == 0 && JoinBytes(h[12], h[13]) == n
            && h[14] == 0xff && h[15] == 0xff
  {
    assert n / 256 % 256 == n / 256;
  }

  lemma PartsStand(data: bytes, h: bytes, k: bytes, s: bytes, m: bytes)
    requires data == h + (k + (s + m))
    ensures |data| == |h| + |k| + |s| + |m|
    ensures data[|h|..|h| + |k|] == k
    ensures data[|h| + |k|..|h| + |k| + |s|] == s
    ensures data[|h| + |k| + |s|..|h| + |k| + |s| + |m|] == m
  {
    assert data == h + k + (s + m);
    assert data == h + k + s + m;
  }

  /** The program reads back exactly the signature, key and message that the SDK laid out. */
  lemma ParserRecovers(transaction: seq<TxInstruction>, signature: bytes, publicKey: bytes, message: bytes)
    requires |signature| == 64 && |publicKey| == 33 && |message| <= 0xffff
    ensures NumSignatures(PrecompileData(signature, publicKey, message)) == Ok(1)
    ensures GetSignaturePayload(transaction, PrecompileData(signature, publicKey, message), 0)
            == Ok(SignaturePayload(signature, publicKey, message))
  {
    var data := PrecompileData(signature, publicKey, message);
    HeaderReads(data, publicKey + (signature + message), |message|);
    PartsStand(data, Header(|message|), publicKey, signature, message);
  }

  // ----- the TypeScript builder

  /** The SDK's parts, in the order it concatenates them. */
  function TsParts(signature: bytes, publicKey: bytes, message: bytes): seq<bytes> {
    var publicKeyOffset := 2 + 14;
    var signatureOffset := publicKeyOffset + |publicKey|;
    var messageOffset := signatureOffset + |signature|;
    [[1], [0], LowHigh(signatureOffset), [0xff, 0xff], LowHigh(publicKeyOffset), [0xff, 0xff],
     LowHigh(messageOffset), LowHigh(|message|), [0xff, 0xff], publicKey, signature, message]
  }

  lemma {:induction false} ConcatSplit(p: seq<bytes>, q: seq<bytes>)
    ensures Concat(p + q) == Concat(p) + Concat(q)
  {
    if p == [] {
      assert [] + q == q;
      assert [] + Concat(q) == Concat(q);
    } else {
      ConcatSplit(p[1..], q);
      assert (p + q)[1..] == p[1..] + q;
      Regroup2(p[0], Concat(p[1..]), Concat(q));
    }
  }

  lemma OffsetParts()
    ensures Concat([[1], [0], LowHigh(49)]) == [1, 0, 49, 0]
    ensures Concat([[0xff, 0xff], LowHigh(16), [0xff, 0xff]]) == [0xff, 0xff, 16, 0, 0xff, 0xff]
  {
    Concat3([1], [0], LowHigh(49));
    Concat3([0xff, 0xff], LowHigh(16), [0xff, 0xff]);
  }

  /** The parts of the header: its first four bytes, two inline marks around the key's offset, and the message's. */
  function HeaderPieces(n: nat): seq<bytes> {
    [[1], [0], LowHigh(49)] + ([[0xff, 0xff], LowHigh(16), [0xff, 0xff]] + [LowHigh(113), LowHigh(n), [0xff, 0xff]])
  }

  lemma HeaderParts(n: nat)
    ensures Concat(HeaderPieces(n)) == Header(n)
  {
    var a, b := [[1], [0], LowHigh(49)], [[0xff, 0xff], LowHigh(16), [0xff, 0xff]];
    var c := [LowHigh(113), LowHigh(n), [0xff, 0xff]];
    ConcatSplit(a, b + c);
    ConcatSplit(b, c);
    OffsetParts();
    Concat3(LowHigh(113), LowHigh(n), [0xff, 0xff]);
  }

  lemma TsPartsAre(signature: bytes, publicKey: bytes, message: bytes)
    requires |signature| == 64 && |publicKey| == 33
    ensures TsParts(signature, publicKey, message)
            == HeaderPieces(|message|) + [publicKey, signature, message]
  {
  }

  lemma TsLayout(signature: bytes, publicKey: bytes, message: bytes)
    requires |signature| == 64 && |publicKey| == 33
    ensures Concat(TsParts(signature, publicKey, message)) == PrecompileData(signature, publicKey, message)
  {
    TsPartsAre(signature, publicKey, message);
    HeaderParts(|message|);
    ConcatSplit(HeaderPieces(|message|), [publicKey, signature, message]);
    Concat3(publicKey, signature, message);
  }

  /** What the instruction data is for a DER signature, a message and a key; `None` is a thrown error. */
  ghost function InstructionData(der: bytes, message: bytes, publicKey: bytes): Option<bytes> {
    if |message| > 0xffff || |publicKey| != 33 then None
    else
      var signature :- CompactOf(der);
      Some(PrecompileData(signature, publicKey, message))
  }

  lemma CompactHas64(der: bytes)
    ensures CompactOf(der).Some? ==> |CompactOf(der).value| == 64
  {
  }

  method CreateSecp256r1Instruction(der: bytes, message: bytes, publicKey: bytes) returns (data: Option<bytes>)
    ensures data == InstructionData(der, message, publicKey)
  {
    CompactHas64(der);
    var signature := ParseDerSignatureToCompact(der);
    if signature.None? { return None; }
    var m := ExpectMaxLength(message, 0xffff);
    if m.None? { return None; }
    var k := ExpectLength(publicKey, 33);
    if k.None? { return None; }
    var joined := ConcatBytes(TsParts(signature.value, k.value, m.value));
    TsLayout(signature.value, k.value, m.value);
    data := Some(joined);
  }

  // ----- the Rust builder

  /** The offsets structure in memory: seven 16-bit integers. */
  function OffsetsBytes(signatureOffset: nat, signatureIndex: nat, publicKeyOffset: nat, publicKeyIndex: nat,
                        messageOffset: nat, messageSize: nat, messageIndex: nat): (b: bytes)
    ensures |b| == 14
  {
    LowHigh(signatureOffset) + LowHigh(signatureIndex) + LowHigh(publicKeyOffset) + LowHigh(publicKeyIndex)
    + LowHigh(messageOffset) + LowHigh(messageSize) + LowHigh(messageIndex)
  }

  lemma SameHeader(n: nat)
    ensures [1, 0] + OffsetsBytes(49, 0xffff, 16, 0xffff, 113, n, 0xffff) == Header(n)
  {
    assert LowHigh(49) == [49, 0] && LowHigh(16) == [16, 0] && LowHigh(113) == [113, 0]
      && LowHigh(0xffff) == [0xff, 0xff];
  }

  /** Where another instruction carries the key. */
  datatype KeyReference = KeyReference(index: byte, offset: u16)

  /** The header of an instruction that refers to a key elsewhere. */
  function ReferringHeader(key: KeyReference, n: nat): (h: bytes)
    ensures |h| == 16
  {
    [1, 0] + OffsetsBytes(16, 0xffff, key.offset, key.index, 80, n, 0xffff)
  }

  function ReferringData(signature: bytes, key: KeyReference, message: bytes): bytes {
    ReferringHeader(key, |message|) + (signature + message)
  }

  /** The data for a key carried inline or elsewhere. */
  function RustData(signature: bytes, message: bytes, publicKey: PublicKey, reference: Option<KeyReference>): bytes {
    match reference
    case None => PrecompileData(signature, publicKey, message)
    case Some(key) => ReferringData(signature, key, message)
  }

  lemma LowHighReads(b: bytes, i: nat, v: nat)
    requires v <= 0xffff && At(b, i, LowHigh(v))
    ensures i + 1 < |b| && U16At(b, i) == v
  {
    assert ByteAt(b, i, LowHigh(v), 0) && ByteAt(b, i, LowHigh(v), 1);
  }

  /** Peels the last of several 16-bit integers. */
  lemma LastReads(b: bytes, i: nat, before: bytes, v: nat)
    requires v <= 0xffff && At(b, i, before + LowHigh(v))
    ensures At(b, i, before) && i + |before| + 1 < |b| && U16At(b, i + |before|) == v
  {
    AtParts(b, i, before, LowHigh(v));
    LowHighReads(b, i + |before|, v);
  }

  lemma ReferringStands(key: KeyReference, n: nat, rest: bytes)
    ensures var data := ReferringHeader(key, n) + rest;
            data[0] == 1 && At(data, 2, OffsetsBytes(16, 0xffff, key.offset, key.index, 80, n, 0xffff))
  {
    var data, offsets := ReferringHeader(key, n) + rest, OffsetsBytes(16, 0xffff, key.offset, key.index, 80, n, 0xffff);
    AtMiddle([1, 0], offsets, rest);
    assert data[0] == [1, 0][0];
  }

  lemma ReferringReads(data: bytes, rest: bytes, key: KeyReference, n: nat)
    requires n <= 0xffff && data == ReferringHeader(key, n) + rest
    ensures |data| >= 16 && data[0] == 1
    ensures U16At(data, 2) == 16 && U16At(data, 6) == key.offset && U16At(data, 10) == 80
    ensures U16At(data, 4) == INLINE && U16At(data, 8) == key.index && U16At(data, 14) == INLINE
    ensures U16At(data, 12) == n
  {
    ReferringStands(key, n, rest);
    var two := LowHigh(16) + LowHigh(0xffff);
    var three := two + LowHigh(key.offset);
    var four := three + LowHigh(key.index);
    var five := four + LowHigh(80);
    LastReads(data, 2, five + LowHigh(n), 0xffff);
    LastReads(data, 2, five, n);
    LastReads(data, 2, four, 80);
    LastReads(data, 2, three, key.index);
    LastReads(data, 2, two, key.offset);
    LastReads(data, 2, LowHigh(16), 0xffff);
    LowHighReads(data, 2, 16);
  }

  /** A key carried by another instruction is read from there, the signature and the message from this one. */
  lemma ReferringRecovers(transaction: seq<TxInstruction>, signature: bytes, key: KeyReference, publicKey: bytes,
                          message: bytes)
    requires |signature| == 64 && |message| <= 0xffff && key.index < |transaction|
    requires GetDataSlice(transaction[key.index].data, key.offset, PUBLIC_KEY_SIZE) == Ok(publicKey)
    ensures GetSignaturePayload(transaction, ReferringData(signature, key, message), 0)
            == Ok(SignaturePayload(signature, publicKey, message))
  {
    var data := ReferringData(signature, key, message);
    ReferringReads(data, signature + message, key, |message|);
    assert signature + message == [] + (signature + message);
    PartsStand(data, ReferringHeader(key, |message|), [], signature, message);
    RawSliceWithin(transaction[key.index], key.offset, PUBLIC_KEY_SIZE);
  }

  // ----- the Rust conversion of a signature, after the foreign DER decoder

  /** The big-endian bytes of a number without leading zeros; zero has none. */
  function ToVec(v: nat): bytes { if v == 0 then [] else MinBE(v) }

  /** s in the lower half of the order: the magnitude of n - s when s lies above it. */
  function Lower(s: nat): nat {
    if s <= P256_HALF_ORDER then s else if s <= P256_ORDER then P256_ORDER - s else s - P256_ORDER
  }

  /** `r || s` with s in the lower half, in two fields of the given size. */
  function RustCompact(r: nat, s: nat, size: nat): Option<bytes> {
    if r >= Pow256(size) || s >= Pow256(size) then None else Some(BE(r, size) + BE(Lower(s), size))
  }

  /** On every pair the TypeScript SDK accepts, both conversions give the same compact signature. */
  lemma CompactsAgree(r: nat, s: nat)
    requires InRange(r) && InRange(s)
    ensures RustCompact(r, s, 32) == Some(Compact(r, s))
  {
    Pow256At32();
  }

  lemma {:induction false} ZerosInFront(n: nat, b: bytes)
    ensures FromBE(Zeros(n) + b) == FromBE(b)
  {
    if n == 0 {
      assert Zeros(0) + b == b;
    } else {
      assert (Zeros(n) + b)[1..] == Zeros(n - 1) + b;
      LeadingZero(Zeros(n) + b);
      ZerosInFront(n - 1, b);
    }
  }

  lemma {:induction false} VecFits(v: nat, n: nat)
    requires n > 0
    ensures FromBE(ToVec(v)) == v
    ensures v < Pow256(n) <==> |ToVec(v)| <= n
  {
    if v > 0 {
      ReadsBackMinBE(v);
      if v < Pow256(n) { MinBELength(v, n); }
      else if |MinBE(v)| <= n {
        WritesBackBE(MinBE(v));
        Pow256Grows(|MinBE(v)|, n);
      }
    }
  }

  lemma {:induction false} PaddedVec(v: nat, n: nat)
    requires n > 0 && |ToVec(v)| <= n
    ensures Zeros(n - |ToVec(v)|) + ToVec(v) == BE(v, n)
  {
    var padded := Zeros(n - |ToVec(v)|) + ToVec(v);
    VecFits(v, n);
    ZerosInFront(n - |ToVec(v)|, ToVec(v));
    WritesBackBE(padded);
    assert |padded| == n;
  }

  /** A number in a field of fixed size: its bytes are copied to the end of zeros; one that is too long is refused. */
  method PadField(v: nat, size: nat) returns (field: Option<bytes>)
    requires size > 0
    ensures field == if v < Pow256(size) then Some(BE(v, size)) else None
  {
    var b := ToVec(v);
    VecFits(v, size);
    if |b| > size { return None; }
    var padded := new byte[size](_ => 0);
    var start := size - |b|;
    forall k | 0 <= k < |b| { padded[start + k] := b[k]; }
    PaddedVec(v, size);
    assert padded[..] == Zeros(start) + b;
    field := Some(padded[..]);
  }

  method ParseDerSignatureToCompactRust(der: bytes, decode: bytes -> Option<(nat, nat)>)
    returns (signature: Option<bytes>)
    ensures signature == match decode(der) case None => None case Some(pair) => RustCompact(pair.0, pair.1, 32)
  {
    var pair := decode(der);
    if pair.None? { return None; }
    var r, s := pair.value.0, pair.value.1;
    signature := JoinFields(r, s, 32);
  }

  method JoinFields(r: nat, s: nat, size: nat) returns (signature: Option<bytes>)
    requires size >= 32
    ensures signature == RustCompact(r, s, size)
  {
    var paddedR := PadField(r, size);
    var paddedS := PadField(s, size);
    if paddedR.None? || paddedS.None? { return None; }
    if s > P256_HALF_ORDER {
      LowerFits(s, size);
      paddedS := PadField(Lower(s), size);
      if paddedS.None? { return None; }
    }
    signature := Some(paddedR.value + paddedS.value);
  }

  lemma {:induction false} LowerFits(s: nat, size: nat)
    requires size >= 32 && s < Pow256(size)
    ensures Lower(s) < Pow256(size)
  {
    Pow256At32();
    Pow256Grows(32, size);
  }

  /** `decode` is the DER decoder of a foreign library. */
  method CreateSecp256r1InstructionRust(der: bytes, message: bytes, publicKey: PublicKey,
                                        reference: Option<KeyReference>,
                                        decode: bytes -> Option<(nat, nat)>) returns (data: Option<bytes>)
    ensures data == if |message| > 0xffff || decode(der).None? then None
                    else
                      var signature :- RustCompact(decode(der).value.0, decode(der).value.1, 32);
                      Some(RustData(signature, message, publicKey, reference))
  {
    if |message| > 0xffff { return None; }
    var signature := ParseDerSignatureToCompactRust(der, decode);
    if signature.None? { return None; }
    var laidOut := LayOutRust(signature.value, message, publicKey, reference);
    data := Some(laidOut);
  }

  method LayOutRust(signature: bytes, message: bytes, publicKey: PublicKey, reference: Option<KeyReference>)
    returns (d: bytes)
    requires |signature| == 64
    ensures d == RustData(signature, message, publicKey, reference)
  {
    var publicKeyIndex: nat, publicKeyOffset: nat := INLINE, 16;
    if reference.Some? { publicKeyIndex, publicKeyOffset := reference.value.index, reference.value.offset; }
    var signatureOffset := if publicKeyIndex == INLINE then publicKeyOffset + 33 else 16;
    var messageDataOffset := signatureOffset + 64;
    d := [1, 0];
    d := d + OffsetsBytes(signatureOffset, INLINE, publicKeyOffset, publicKeyIndex, messageDataOffset, |message|,
                          INLINE);
    ghost var header := d;
    if publicKeyIndex == INLINE {
      SameHeader(|message|);
      d := d + publicKey;
      d := d + signature;
      d := d + message;
      Regroup2(header + publicKey, signature, message);
      Regroup2(header, publicKey, signature + message);
    } else {
      d := d + signature;
      d := d + message;
      Regroup2(header, signature, message);
    }
  }
}

// The wire formats of the four instructions: the TypeScript SDK's encoders against the program's
// Borsh schema with its length-prefixed small vectors.
module Wire {
  import opened Basics
  import opened Endian
  import opened ClientData

  // ----- concatenation

  /** `concatBytes(...parts)` as a function. */
  function Concat(parts: seq<bytes>): bytes {
    if parts == [] then [] else parts[0] + Concat(parts[1..])
  }

  lemma Concat2(a: bytes, b: bytes)
    ensures Concat([a, b]) == a + b
  {
    assert [a, b][1..] == [b] && [b][1..] == [];
    assert Concat([b]) == b + [];
  }

  lemma {:induction false} ConcatMore(a: bytes, parts: seq<bytes>)
    ensures Concat([a] + parts) == a + Concat(parts)
  {
    assert ([a] + parts)[1..] == parts;
  }

  lemma Concat3(a: bytes, b: bytes, c: bytes)
    ensures Concat([a, b, c]) == a + (b + c)
  {
    Concat2(b, c);
    ConcatMore(a, [b, c]);
    assert [a, b, c] == [a] + [b, c];
  }

  lemma Concat4(a: bytes, b: bytes, c: bytes, d: bytes)
    ensures Concat([a, b, c, d]) == a + (b + (c + d))
  {
    Concat3(b, c, d);
    ConcatMore(a, [b, c, d]);
    assert [a, b, c, d] == [a] + [b, c, d];
  }

  lemma Concat5(a: bytes, b: bytes, c: bytes, d: bytes, e: bytes)
    ensures Concat([a, b, c, d, e]) == a + (b + (c + (d + e)))
  {
    Concat4(b, c, d, e);
    ConcatMore(a, [b, c, d, e]);
    assert [a, b, c, d, e] == [a] + [b, c, d, e];
  }

  function TotalLength(parts: seq<bytes>): (n: nat)
    ensures n == |Concat(parts)|
  {
    if parts == [] then 0 else |parts[0]| + TotalLength(parts[1..])
  }

  lemma {:induction false} ConcatAppend(parts: seq<bytes>, last: bytes)
    ensures Concat(parts + [last]) == Concat(parts) + last
  {
    if parts == [] {
      assert [] + [last] == [last];
      assert Concat([last]) == last + Concat([last][1..]);
    } else {
      ConcatAppend(parts[1..], last);
      assert (parts + [last])[1..] == parts[1..] + [last];
      assert parts[0] + (Concat(parts[1..]) + last) == parts[0] + Concat(parts[1..]) + last;
    }
  }

  lemma {:induction false} PrefixFits(parts: seq<bytes>, i: nat)
    requires i < |parts|
    ensures |Concat(parts[..i])| + |parts[i]| <= |Concat(parts)|
  {
    if i == 0 {
    } else {
      PrefixFits(parts[1..], i - 1);
      assert parts[1..][..i - 1] == parts[..i][1..];
    }
  }

  /** The loop that copies every part to its offset in a buffer of the total length. */
  method ConcatBytes(parts: seq<bytes>) returns (out: bytes)
    ensures out == Concat(parts)
  {
    var buffer := new byte[TotalLength(parts)];
    var offset, i := 0, 0;
    while i < |parts|
      invariant 0 <= i <= |parts|
      invariant offset == |Concat(parts[..i])| <= buffer.Length
      invariant buffer[..offset] == Concat(parts[..i])
    {
      var part := parts[i];
      PrefixFits(parts, i);
      ConcatAppend(parts[..i], part);
      assert parts[..i + 1] == parts[..i] + [part];
      forall k | 0 <= k < |part| { buffer[offset + k] := part[k]; }
      assert buffer[..offset + |part|] == Concat(parts[..i]) + part;
      offset := offset + |part|;
      i := i + 1;
    }
    assert parts[..i] == parts;
    out := buffer[..];
  }

  // ----- values; fields the SDK range-checks are plain integers here

  datatype SessionKey = SessionKey(key: bytes, expiration: int)

  /** A session key whose fields have their on-chain widths. */
  predicate IsRaw(k: SessionKey) {
    |k.key| == 32 && 0 <= k.expiration < 0x1_0000_0000_0000_0000
  }

  type RawSessionKey = k: SessionKey | IsRaw(k) witness SessionKey(Zeros(32), 0)

  datatype CompiledInstruction = CompiledInstruction(programIdIndex: byte, accountsIndices: bytes, data: bytes)

  datatype ExecuteArgs = ExecuteArgs(signatureScheme: byte, signerExecutionScheme: byte, slothash: int,
                                     extraVerificationData: bytes, instructions: seq<CompiledInstruction>)

  datatype SessionedArgs = SessionedArgs(signatureScheme: byte, signerExecutionScheme: byte,
                                         instructions: seq<CompiledInstruction>)

  datatype RefreshArgs = RefreshArgs(slothash: int, signatureScheme: byte, verificationData: bytes,
                                     sessionKey: SessionKey)

  datatype InitializeArgs = InitializeArgs(slothash: int, signatureScheme: byte, initializationData: bytes,
                                           sessionKey: Option<SessionKey>)

  datatype VerificationData = VerificationData(publicKey: bytes, params: Params)

  datatype InitializationData = InitializationData(rpId: bytes, publicKey: bytes, params: Params)

  // ----- the SDK's encoders; None is a thrown range or length error

  function ToLittleEndianU16(v: int): Option<bytes> {
    if 0 <= v <= 0xffff then Some(LE(v, 2)) else None
  }

  function ToLittleEndianU64(v: int): Option<bytes> {
    if 0 <= v <= 0xffff_ffff_ffff_ffff then Some(LE(v, 8)) else None
  }

  function ExpectLength(b: bytes, n: nat): Option<bytes> {
    if |b| == n then Some(b) else None
  }

  function ExpectMaxLength(b: bytes, n: nat): Option<bytes> {
    if |b| <= n then Some(b) else None
  }

  function SerializeOptionU16(v: Option<u16>): bytes {
    match v
    case None => [0]
    case Some(n) => Concat([[1], LE(n, 2)])
  }

  function SerializeParams(p: Params): bytes {
    Concat([[p.typeAndFlags], SerializeOptionU16(p.port)])
  }

  function SerializeSmallVecU8(b: bytes): Option<bytes> {
    var normalized :- ExpectMaxLength(b, 0xff);
    Some(Concat([[|normalized|], normalized]))
  }

  function SerializeSmallVecU16(b: bytes): Option<bytes> {
    var normalized :- ExpectMaxLength(b, 0xffff);
    var length :- ToLittleEndianU16(|normalized|);
    Some(Concat([length, normalized]))
  }

  function SerializeSessionKey(k: SessionKey): Option<bytes> {
    var key :- ExpectLength(k.key, 32);
    var expiration :- ToLittleEndianU64(k.expiration);
    Some(Concat([key, expiration]))
  }

  function SerializeVerificationData(v: VerificationData): Option<bytes> {
    var publicKey :- ExpectLength(v.publicKey, 33);
    Some(Concat([publicKey, SerializeParams(v.params)]))
  }

  function SerializeInitializationData(v: InitializationData): Option<bytes> {
    var rpId :- SerializeSmallVecU8(v.rpId);
    var publicKey :- ExpectLength(v.publicKey, 33);
    Some(Concat([rpId, publicKey, SerializeParams(v.params)]))
  }

  function SerializeCompiledInstruction(i: CompiledInstruction): Option<bytes> {
    var accounts :- SerializeSmallVecU8(i.accountsIndices);
    var data :- SerializeSmallVecU16(i.data);
    Some(Concat([[i.programIdIndex], accounts, data]))
  }

  /** `instructions.map(serializeCompiledInstruction)`, concatenated. */
  function SerializeEach(instructions: seq<CompiledInstruction>): Option<bytes> {
    if instructions == [] then Some([])
    else
      var first :- SerializeCompiledInstruction(instructions[0]);
      var rest :- SerializeEach(instructions[1..]);
      Some(first + rest)
  }

  function SerializeCompiledInstructions(instructions: seq<CompiledInstruction>): Option<bytes> {
    if |instructions| > 0xff then None
    else
      var each :- SerializeEach(instructions);
      Some(Concat([[|instructions|], each]))
  }

  function SerializeExecuteArgs(a: ExecuteArgs): Option<bytes> {
    var slot :- ToLittleEndianU16(a.slothash);
    var data :- SerializeSmallVecU8(a.extraVerificationData);
    var instructions :- SerializeCompiledInstructions(a.instructions);
    Some(Concat([[a.signatureScheme], [a.signerExecutionScheme], slot, data, instructions]))
  }

  function SerializeSessionedArgs(a: SessionedArgs): Option<bytes> {
    var instructions :- SerializeCompiledInstructions(a.instructions);
    Some(Concat([[a.signatureScheme], [a.signerExecutionScheme], instructions]))
  }

  function SerializeRefreshArgs(a: RefreshArgs): Option<bytes> {
    var slot :- ToLittleEndianU16(a.slothash);
    var data :- SerializeSmallVecU8(a.verificationData);
    var key :- SerializeSessionKey(a.sessionKey);
    Some(Concat([slot, [a.signatureScheme], data, key]))
  }

  function SerializeOptionalKey(k: Option<SessionKey>): Option<bytes> {
    match k
    case None => Some([0])
    case Some(key) =>
      var b :- SerializeSessionKey(key);
      Some(Concat([[1], b]))
  }

  function SerializeInitializeArgs(a: InitializeArgs): Option<bytes> {
    var slot :- ToLittleEndianU16(a.slothash);
    var data :- SerializeSmallVecU8(a.initializationData);
    var key :- SerializeOptionalKey(a.sessionKey);
    Some(Concat([slot, [a.signatureScheme], data, key]))
  }

  // ----- the program's decoders: a value and the bytes left

  function Take(b: bytes, n: nat): Option<(bytes, bytes)> {
    if n <= |b| then Some((b[..n], b[n..])) else None
  }

  function TakeByte(b: bytes): Option<(byte, bytes)> {
    if b != [] then Some((b[0], b[1..])) else None
  }

  function TakeLE(b: bytes, n: nat): (r: Option<(nat, bytes)>)
    ensures r.Some? ==> r.value.0 < Pow256(n)
  {
    var t :- Take(b, n);
    WritesBackLE(t.0);
    Some((FromLE(t.0), t.1))
  }

  function TakeOptionU16(b: bytes): (r: Option<(Option<u16>, bytes)>) {
    var tag :- TakeByte(b);
    if tag.0 == 0 then Some((None, tag.1))
    else if tag.0 == 1 then
      var n :- TakeLE(tag.1, 2);
      if n.0 < 0x1_0000 then Some((Some(n.0), n.1)) else None
    else None
  }

  function TakeParams(b: bytes): Option<(Params, bytes)> {
    var flags :- TakeByte(b);
    var port :- TakeOptionU16(flags.1);
    Some((Params(flags.0, port.0), port.1))
  }

  function TakeSmallVecU8(b: bytes): Option<(bytes, bytes)> {
    var length :- TakeByte(b);
    Take(length.1, length.0)
  }

  function TakeSmallVecU16(b: bytes): Option<(bytes, bytes)> {
    var length :- TakeLE(b, 2);
    Take(length.1, length.0)
  }

  function TakeSessionKey(b: bytes): (r: Option<(SessionKey, bytes)>)
    ensures r.Some? ==> IsRaw(r.value.0)
  {
    var key :- Take(b, 32);
    Widths();
    var expiration :- TakeLE(key.1, 8);
    Some((SessionKey(key.0, expiration.0), expiration.1))
  }

  function TakeOptionalKey(b: bytes): (r: Option<(Option<SessionKey>, bytes)>)
    ensures r.Some? && r.value.0.Some? ==> IsRaw(r.value.0.value)
  {
    var tag :- TakeByte(b);
    if tag.0 == 0 then Some((None, tag.1))
    else if tag.0 == 1 then
      var k :- TakeSessionKey(tag.1);
      Some((Some(k.0), k.1))
    else None
  }

  function TakeVerificationData(b: bytes): (r: Option<(VerificationData, bytes)>)
    ensures r.Some? ==> |r.value.0.publicKey| == 33
  {
    var key :- Take(b, 33);
    var params :- TakeParams(key.1);
    Some((VerificationData(key.0, params.0), params.1))
  }

  function TakeInitializationData(b: bytes): (r: Option<(InitializationData, bytes)>)
    ensures r.Some? ==> |r.value.0.publicKey| == 33
  {
    var rpId :- TakeSmallVecU8(b);
    var key :- Take(rpId.1, 33);
    var params :- TakeParams(key.1);
    Some((InitializationData(rpId.0, key.0, params.0), params.1))
  }

  function TakeCompiledInstruction(b: bytes): Option<(CompiledInstruction, bytes)> {
    var program :- TakeByte(b);
    var accounts :- TakeSmallVecU8(program.1);
    var data :- TakeSmallVecU16(accounts.1);
    Some((CompiledInstruction(program.0, accounts.0, data.0), data.1))
  }

  function TakeEach(b: bytes, count: nat): (r: Option<(seq<CompiledInstruction>, bytes)>)
    ensures r.Some? ==> |r.value.0| == count
  {
    if count == 0 then Some(([], b))
    else
      var first :- TakeCompiledInstruction(b);
      var rest :- TakeEach(first.1, count - 1);
      Some(([first.0] + rest.0, rest.1))
  }

  function TakeCompiledInstructions(b: bytes): Option<(seq<CompiledInstruction>, bytes)> {
    var length :- TakeByte(b);
    TakeEach(length.1, length.0)
  }

  function TakeExecuteArgs(b: bytes): (r: Option<(ExecuteArgs, bytes)>)
    ensures r.Some? ==> 0 <= r.value.0.slothash < 0x1_0000
  {
    Widths();
    var scheme :- TakeByte(b);
    var execution :- TakeByte(scheme.1);
    var slot :- TakeLE(execution.1, 2);
    var data :- TakeSmallVecU8(slot.1);
    var instructions :- TakeCompiledInstructions(data.1);
    Some((ExecuteArgs(scheme.0, execution.0, slot.0, data.0, instructions.0), instructions.1))
  }

  function TakeSessionedArgs(b: bytes): Option<(SessionedArgs, bytes)> {
    var scheme :- TakeByte(b);
    var execution :- TakeByte(scheme.1);
    var instructions :- TakeCompiledInstructions(execution.1);
    Some((SessionedArgs(scheme.0, execution.0, instructions.0), instructions.1))
  }

  function TakeRefreshArgs(b: bytes): (r: Option<(RefreshArgs, bytes)>)
    ensures r.Some? ==> 0 <= r.value.0.slothash < 0x1_0000 && IsRaw(r.value.0.sessionKey)
  {
    Widths();
    var slot :- TakeLE(b, 2);
    var scheme :- TakeByte(slot.1);
    var data :- TakeSmallVecU8(scheme.1);
    var key :- TakeSessionKey(data.1);
    Some((RefreshArgs(slot.0, scheme.0, data.0, key.0), key.1))
  }

  function TakeInitializeArgs(b: bytes): (r: Option<(InitializeArgs, bytes)>)
    ensures r.Some? ==> 0 <= r.value.0.slothash < 0x1_0000
    ensures r.Some? && r.value.0.sessionKey.Some? ==> IsRaw(r.value.0.sessionKey.value)
  {
    Widths();
    var slot :- TakeLE(b, 2);
    var scheme :- TakeByte(slot.1);
    var data :- TakeSmallVecU8(scheme.1);
    var key :- TakeOptionalKey(data.1);
    Some((InitializeArgs(slot.0, scheme.0, data.0, key.0), key.1))
  }

  /** `try_from_slice`: the value must use up the bytes. */
  function Whole<T>(taken: Option<(T, bytes)>): Option<T> {
    if taken.Some? && taken.value.1 == [] then Some(taken.value.0) else None
  }
}

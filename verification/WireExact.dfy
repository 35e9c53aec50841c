// Encoders and decoders are inverse to each other: for every value and every byte string, the SDK
// encodes the value to the bytes exactly when the program decodes the bytes to the value.
module WireExact {
  import opened Basics
  import opened Endian
  import opened ClientData
  import opened Wire

  lemma ByteExact(x: byte, b: bytes, rest: bytes)
    ensures TakeByte(b) == Some((x, rest)) <==> b == [x] + rest
  {
  }

  lemma TakeExact(x: bytes, n: nat, b: bytes, rest: bytes)
    ensures Take(b, n) == Some((x, rest)) <==> |x| == n && b == x + rest
  {
    if n <= |b| { assert b == b[..n] + b[n..]; }
  }

  lemma {:induction false} LEExact(v: nat, n: nat, b: bytes, rest: bytes)
    ensures TakeLE(b, n) == Some((v, rest)) <==> v < Pow256(n) && b == LE(v, n) + rest
  {
    if v < Pow256(n) && b == LE(v, n) + rest {
      TakeExact(LE(v, n), n, b, rest);
      ReadsBackLE(v, n);
    }
    if TakeLE(b, n) == Some((v, rest)) {
      var x := Take(b, n).value.0;
      TakeExact(x, n, b, rest);
      WritesBackLE(x);
    }
  }

  /** Reading one part and then the rest is reading their concatenation. */
  lemma Regroup2(a: bytes, b: bytes, rest: bytes)
    ensures a + b + rest == a + (b + rest)
  {
  }

  lemma Regroup3(a: bytes, b: bytes, c: bytes, rest: bytes)
    ensures a + (b + c) + rest == a + (b + (c + rest))
  {
    assert a + (b + c) + rest == a + ((b + c) + rest);
  }

  lemma Regroup4(a: bytes, b: bytes, c: bytes, d: bytes, rest: bytes)
    ensures a + (b + (c + d)) + rest == a + (b + (c + (d + rest)))
  {
    Regroup2(a, b + (c + d), rest);
    Regroup3(b, c, d, rest);
  }

  lemma Regroup5(a: bytes, b: bytes, c: bytes, d: bytes, e: bytes, rest: bytes)
    ensures a + (b + (c + (d + e))) + rest == a + (b + (c + (d + (e + rest))))
  {
    Regroup2(a, b + (c + (d + e)), rest);
    Regroup4(b, c, d, e, rest);
  }

  lemma OptionU16Exact(v: Option<u16>, b: bytes, rest: bytes)
    ensures TakeOptionU16(b) == Some((v, rest)) <==> b == SerializeOptionU16(v) + rest
  {
    Widths();
    match v
    case None =>
      ByteExact(0, b, rest);
    case Some(n) =>
      var r := LE(n, 2) + rest;
      Concat2([1], LE(n, 2));
      Regroup2([1], LE(n, 2), rest);
      ByteExact(1, b, r);
      LEExact(n, 2, r, rest);
      if TakeOptionU16(b) == Some((v, rest)) {
        var tag := TakeByte(b).value;
        ByteExact(1, b, tag.1);
        LEExact(n, 2, tag.1, rest);
      }
  }

  lemma ParamsExact(p: Params, b: bytes, rest: bytes)
    ensures TakeParams(b) == Some((p, rest)) <==> b == SerializeParams(p) + rest
  {
    var port := SerializeOptionU16(p.port);
    Concat2([p.typeAndFlags], port);
    Regroup2([p.typeAndFlags], port, rest);
    ByteExact(p.typeAndFlags, b, port + rest);
    OptionU16Exact(p.port, port + rest, rest);
    if TakeParams(b) == Some((p, rest)) {
      var r := TakeByte(b).value.1;
      ByteExact(p.typeAndFlags, b, r);
      OptionU16Exact(p.port, r, rest);
    }
  }

  lemma SmallVecU8Exact(x: bytes, b: bytes, rest: bytes)
    ensures TakeSmallVecU8(b) == Some((x, rest))
            <==> SerializeSmallVecU8(x).Some? && b == SerializeSmallVecU8(x).value + rest
  {
    if |x| <= 0xff {
      Concat2([|x|], x);
      Regroup2([|x|], x, rest);
      ByteExact(|x|, b, x + rest);
      TakeExact(x, |x|, x + rest, rest);
    }
    if TakeSmallVecU8(b) == Some((x, rest)) {
      var length := TakeByte(b).value;
      ByteExact(length.0, b, length.1);
      TakeExact(x, length.0, length.1, rest);
    }
  }

  lemma SmallVecU16Exact(x: bytes, b: bytes, rest: bytes)
    ensures TakeSmallVecU16(b) == Some((x, rest))
            <==> SerializeSmallVecU16(x).Some? && b == SerializeSmallVecU16(x).value + rest
  {
    Widths();
    if |x| <= 0xffff {
      Concat2(LE(|x|, 2), x);
      Regroup2(LE(|x|, 2), x, rest);
      LEExact(|x|, 2, b, x + rest);
      TakeExact(x, |x|, x + rest, rest);
    }
    if TakeSmallVecU16(b) == Some((x, rest)) {
      var length := TakeLE(b, 2).value;
      LEExact(length.0, 2, b, length.1);
      TakeExact(x, length.0, length.1, rest);
    }
  }

  lemma SessionKeyExact(k: SessionKey, b: bytes, rest: bytes)
    ensures TakeSessionKey(b) == Some((k, rest))
            <==> SerializeSessionKey(k).Some? && b == SerializeSessionKey(k).value + rest
  {
    Widths();
    if SerializeSessionKey(k).Some? {
      var expiration := LE(k.expiration, 8);
      Concat2(k.key, expiration);
      Regroup2(k.key, expiration, rest);
      TakeExact(k.key, 32, b, expiration + rest);
      LEExact(k.expiration, 8, expiration + rest, rest);
    }
    if TakeSessionKey(b) == Some((k, rest)) {
      var r := Take(b, 32).value.1;
      TakeExact(k.key, 32, b, r);
      LEExact(k.expiration, 8, r, rest);
    }
  }

  lemma OptionalKeyExact(k: Option<SessionKey>, b: bytes, rest: bytes)
    ensures TakeOptionalKey(b) == Some((k, rest))
            <==> SerializeOptionalKey(k).Some? && b == SerializeOptionalKey(k).value + rest
  {
    match k
    case None =>
      ByteExact(0, b, rest);
    case Some(key) =>
      if SerializeSessionKey(key).Some? {
        var e := SerializeSessionKey(key).value;
        Concat2([1], e);
        Regroup2([1], e, rest);
        ByteExact(1, b, e + rest);
        SessionKeyExact(key, e + rest, rest);
      }
      if TakeOptionalKey(b) == Some((k, rest)) {
        var r := TakeByte(b).value.1;
        ByteExact(1, b, r);
        SessionKeyExact(key, r, rest);
      }
  }

  lemma VerificationDataExact(v: VerificationData, b: bytes, rest: bytes)
    ensures TakeVerificationData(b) == Some((v, rest))
            <==> SerializeVerificationData(v).Some? && b == SerializeVerificationData(v).value + rest
  {
    var params := SerializeParams(v.params);
    Concat2(v.publicKey, params);
    Regroup2(v.publicKey, params, rest);
    TakeExact(v.publicKey, 33, b, params + rest);
    ParamsExact(v.params, params + rest, rest);
    if TakeVerificationData(b) == Some((v, rest)) {
      var r := Take(b, 33).value.1;
      TakeExact(v.publicKey, 33, b, r);
      ParamsExact(v.params, r, rest);
    }
  }

  lemma InitializationDataExact(v: InitializationData, b: bytes, rest: bytes)
    ensures TakeInitializationData(b) == Some((v, rest))
            <==> SerializeInitializationData(v).Some? && b == SerializeInitializationData(v).value + rest
  {
    var params := SerializeParams(v.params);
    var r2 := params + rest;
    if SerializeInitializationData(v).Some? {
      var rpId := SerializeSmallVecU8(v.rpId).value;
      Concat3(rpId, v.publicKey, params);
      Regroup3(rpId, v.publicKey, params, rest);
      SmallVecU8Exact(v.rpId, b, v.publicKey + r2);
      TakeExact(v.publicKey, 33, v.publicKey + r2, r2);
      ParamsExact(v.params, r2, rest);
    }
    if TakeInitializationData(b) == Some((v, rest)) {
      var r := TakeSmallVecU8(b).value.1;
      var s := Take(r, 33).value.1;
      SmallVecU8Exact(v.rpId, b, r);
      TakeExact(v.publicKey, 33, r, s);
      ParamsExact(v.params, s, rest);
    }
  }

  lemma CompiledInstructionExact(i: CompiledInstruction, b: bytes, rest: bytes)
    ensures TakeCompiledInstruction(b) == Some((i, rest))
            <==> SerializeCompiledInstruction(i).Some? && b == SerializeCompiledInstruction(i).value + rest
  {
    if SerializeCompiledInstruction(i).Some? {
      var accounts, data := SerializeSmallVecU8(i.accountsIndices).value, SerializeSmallVecU16(i.data).value;
      Concat3([i.programIdIndex], accounts, data);
      Regroup3([i.programIdIndex], accounts, data, rest);
      ByteExact(i.programIdIndex, b, accounts + (data + rest));
      SmallVecU8Exact(i.accountsIndices, accounts + (data + rest), data + rest);
      SmallVecU16Exact(i.data, data + rest, rest);
    }
    if TakeCompiledInstruction(b) == Some((i, rest)) {
      var r := TakeByte(b).value.1;
      var s := TakeSmallVecU8(r).value.1;
      ByteExact(i.programIdIndex, b, r);
      SmallVecU8Exact(i.accountsIndices, r, s);
      SmallVecU16Exact(i.data, s, rest);
    }
  }

  lemma {:induction false} EachExact(v: seq<CompiledInstruction>, b: bytes, rest: bytes)
    ensures TakeEach(b, |v|) == Some((v, rest)) <==> SerializeEach(v).Some? && b == SerializeEach(v).value + rest
  {
    if v == [] {
      assert [] + rest == rest;
    } else {
      assert v == [v[0]] + v[1..];
      if SerializeEach(v).Some? {
        var first, more := SerializeCompiledInstruction(v[0]).value, SerializeEach(v[1..]).value;
        Regroup2(first, more, rest);
        CompiledInstructionExact(v[0], b, more + rest);
        EachExact(v[1..], more + rest, rest);
      }
      if TakeEach(b, |v|) == Some((v, rest)) {
        var first := TakeCompiledInstruction(b).value;
        EachHead(b, v, rest);
        CompiledInstructionExact(v[0], b, first.1);
        EachExact(v[1..], first.1, rest);
      }
    }
  }

  lemma {:induction false} EachHead(b: bytes, v: seq<CompiledInstruction>, rest: bytes)
    requires v != [] && TakeEach(b, |v|) == Some((v, rest))
    ensures TakeCompiledInstruction(b).Some?
    ensures TakeCompiledInstruction(b).value.0 == v[0]
    ensures TakeEach(TakeCompiledInstruction(b).value.1, |v| - 1) == Some((v[1..], rest))
  {
    var first := TakeCompiledInstruction(b).value;
    var more := TakeEach(first.1, |v| - 1).value;
    assert v == [first.0] + more.0;
    assert v[1..] == more.0;
  }

  lemma CompiledInstructionsExact(v: seq<CompiledInstruction>, b: bytes, rest: bytes)
    ensures TakeCompiledInstructions(b) == Some((v, rest))
            <==> SerializeCompiledInstructions(v).Some? && b == SerializeCompiledInstructions(v).value + rest
  {
    if SerializeCompiledInstructions(v).Some? {
      var each := SerializeEach(v).value;
      Concat2([|v|], each);
      Regroup2([|v|], each, rest);
      ByteExact(|v|, b, each + rest);
      EachExact(v, each + rest, rest);
    }
    if TakeCompiledInstructions(b) == Some((v, rest)) {
      var length := TakeByte(b).value;
      ByteExact(length.0, b, length.1);
      EachExact(v, length.1, rest);
    }
  }

  lemma ExecuteArgsTaken(a: ExecuteArgs, b: bytes, rest: bytes)
    requires TakeExecuteArgs(b) == Some((a, rest))
    ensures SerializeExecuteArgs(a).Some? && b == SerializeExecuteArgs(a).value + rest
  {
    Widths();
    var r1 := TakeByte(b).value.1;
    var r2 := TakeByte(r1).value.1;
    var r3 := TakeLE(r2, 2).value.1;
    var r4 := TakeSmallVecU8(r3).value.1;
    ByteExact(a.signatureScheme, b, r1);
    ByteExact(a.signerExecutionScheme, r1, r2);
    LEExact(a.slothash, 2, r2, r3);
    SmallVecU8Exact(a.extraVerificationData, r3, r4);
    CompiledInstructionsExact(a.instructions, r4, rest);
    ExecuteArgsParts(a, rest);
  }

  lemma ExecuteArgsParts(a: ExecuteArgs, rest: bytes)
    requires SerializeExecuteArgs(a).Some?
    ensures SerializeExecuteArgs(a).value + rest ==
              [a.signatureScheme] + ([a.signerExecutionScheme] + (LE(a.slothash, 2)
              + (SerializeSmallVecU8(a.extraVerificationData).value
              + (SerializeCompiledInstructions(a.instructions).value + rest))))
  {
    var data := SerializeSmallVecU8(a.extraVerificationData).value;
    var instructions := SerializeCompiledInstructions(a.instructions).value;
    Concat5([a.signatureScheme], [a.signerExecutionScheme], LE(a.slothash, 2), data, instructions);
    Regroup5([a.signatureScheme], [a.signerExecutionScheme], LE(a.slothash, 2), data, instructions, rest);
  }

  lemma ExecuteArgsSerialized(a: ExecuteArgs, b: bytes, rest: bytes)
    requires SerializeExecuteArgs(a).Some? && b == SerializeExecuteArgs(a).value + rest
    ensures TakeExecuteArgs(b) == Some((a, rest))
  {
    Widths();
    ExecuteArgsParts(a, rest);
    var r4 := SerializeCompiledInstructions(a.instructions).value + rest;
    var r3 := SerializeSmallVecU8(a.extraVerificationData).value + r4;
    var r2 := LE(a.slothash, 2) + r3;
    var r1 := [a.signerExecutionScheme] + r2;
    ByteExact(a.signatureScheme, b, r1);
    ByteExact(a.signerExecutionScheme, r1, r2);
    LEExact(a.slothash, 2, r2, r3);
    SmallVecU8Exact(a.extraVerificationData, r3, r4);
    CompiledInstructionsExact(a.instructions, r4, rest);
  }

  lemma SessionedArgsExact(a: SessionedArgs, b: bytes, rest: bytes)
    ensures TakeSessionedArgs(b) == Some((a, rest))
            <==> SerializeSessionedArgs(a).Some? && b == SerializeSessionedArgs(a).value + rest
  {
    if SerializeSessionedArgs(a).Some? {
      var instructions := SerializeCompiledInstructions(a.instructions).value;
      var r2 := instructions + rest;
      Concat3([a.signatureScheme], [a.signerExecutionScheme], instructions);
      Regroup3([a.signatureScheme], [a.signerExecutionScheme], instructions, rest);
      ByteExact(a.signatureScheme, b, [a.signerExecutionScheme] + r2);
      ByteExact(a.signerExecutionScheme, [a.signerExecutionScheme] + r2, r2);
      CompiledInstructionsExact(a.instructions, r2, rest);
    }
    if TakeSessionedArgs(b) == Some((a, rest)) {
      var r1 := TakeByte(b).value.1;
      var r2 := TakeByte(r1).value.1;
      ByteExact(a.signatureScheme, b, r1);
      ByteExact(a.signerExecutionScheme, r1, r2);
      CompiledInstructionsExact(a.instructions, r2, rest);
    }
  }

  lemma RefreshArgsExact(a: RefreshArgs, b: bytes, rest: bytes)
    ensures TakeRefreshArgs(b) == Some((a, rest))
            <==> SerializeRefreshArgs(a).Some? && b == SerializeRefreshArgs(a).value + rest
  {
    Widths();
    if SerializeRefreshArgs(a).Some? {
      var data, key := SerializeSmallVecU8(a.verificationData).value, SerializeSessionKey(a.sessionKey).value;
      var r3 := key + rest;
      var r2 := data + r3;
      var r1 := [a.signatureScheme] + r2;
      Concat4(LE(a.slothash, 2), [a.signatureScheme], data, key);
      Regroup4(LE(a.slothash, 2), [a.signatureScheme], data, key, rest);
      LEExact(a.slothash, 2, b, r1);
      ByteExact(a.signatureScheme, r1, r2);
      SmallVecU8Exact(a.verificationData, r2, r3);
      SessionKeyExact(a.sessionKey, r3, rest);
    }
    if TakeRefreshArgs(b) == Some((a, rest)) {
      var r1 := TakeLE(b, 2).value.1;
      var r2 := TakeByte(r1).value.1;
      var r3 := TakeSmallVecU8(r2).value.1;
      LEExact(a.slothash, 2, b, r1);
      ByteExact(a.signatureScheme, r1, r2);
      SmallVecU8Exact(a.verificationData, r2, r3);
      SessionKeyExact(a.sessionKey, r3, rest);
    }
  }

  lemma InitializeArgsExact(a: InitializeArgs, b: bytes, rest: bytes)
    ensures TakeInitializeArgs(b) == Some((a, rest))
            <==> SerializeInitializeArgs(a).Some? && b == SerializeInitializeArgs(a).value + rest
  {
    Widths();
    if SerializeInitializeArgs(a).Some? {
      var data, key := SerializeSmallVecU8(a.initializationData).value, SerializeOptionalKey(a.sessionKey).value;
      var r3 := key + rest;
      var r2 := data + r3;
      var r1 := [a.signatureScheme] + r2;
      Concat4(LE(a.slothash, 2), [a.signatureScheme], data, key);
      Regroup4(LE(a.slothash, 2), [a.signatureScheme], data, key, rest);
      LEExact(a.slothash, 2, b, r1);
      ByteExact(a.signatureScheme, r1, r2);
      SmallVecU8Exact(a.initializationData, r2, r3);
      OptionalKeyExact(a.sessionKey, r3, rest);
    }
    if TakeInitializeArgs(b) == Some((a, rest)) {
      var r1 := TakeLE(b, 2).value.1;
      var r2 := TakeByte(r1).value.1;
      var r3 := TakeSmallVecU8(r2).value.1;
      LEExact(a.slothash, 2, b, r1);
      ByteExact(a.signatureScheme, r1, r2);
      SmallVecU8Exact(a.initializationData, r2, r3);
      OptionalKeyExact(a.sessionKey, r3, rest);
    }
  }

  // ----- whole instruction data, as `try_from_slice` reads it

  lemma WholeRest(b: bytes)
    ensures b + [] == b
  {
  }

  lemma ExecuteRoundTrip(a: ExecuteArgs, b: bytes)
    ensures SerializeExecuteArgs(a) == Some(b) <==> Whole(TakeExecuteArgs(b)) == Some(a)
  {
    WholeRest(b);
    if SerializeExecuteArgs(a) == Some(b) { ExecuteArgsSerialized(a, b, []); }
    if Whole(TakeExecuteArgs(b)) == Some(a) {
      ExecuteArgsTaken(a, b, []);
      WholeRest(SerializeExecuteArgs(a).value);
    }
  }

  lemma SessionedRoundTrip(a: SessionedArgs, b: bytes)
    ensures SerializeSessionedArgs(a) == Some(b) <==> Whole(TakeSessionedArgs(b)) == Some(a)
  {
    SessionedArgsExact(a, b, []);
    if SerializeSessionedArgs(a).Some? { WholeRest(SerializeSessionedArgs(a).value); }
  }

  lemma RefreshRoundTrip(a: RefreshArgs, b: bytes)
    ensures SerializeRefreshArgs(a) == Some(b) <==> Whole(TakeRefreshArgs(b)) == Some(a)
  {
    RefreshArgsExact(a, b, []);
    if SerializeRefreshArgs(a).Some? { WholeRest(SerializeRefreshArgs(a).value); }
  }

  lemma InitializeRoundTrip(a: InitializeArgs, b: bytes)
    ensures SerializeInitializeArgs(a) == Some(b) <==> Whole(TakeInitializeArgs(b)) == Some(a)
  {
    InitializeArgsExact(a, b, []);
    if SerializeInitializeArgs(a).Some? { WholeRest(SerializeInitializeArgs(a).value); }
  }

  lemma VerificationDataRoundTrip(v: VerificationData, b: bytes)
    ensures SerializeVerificationData(v) == Some(b) <==> Whole(TakeVerificationData(b)) == Some(v)
  {
    VerificationDataExact(v, b, []);
    if SerializeVerificationData(v).Some? { WholeRest(SerializeVerificationData(v).value); }
  }

  lemma InitializationDataRoundTrip(v: InitializationData, b: bytes)
    ensures SerializeInitializationData(v) == Some(b) <==> Whole(TakeInitializationData(b)) == Some(v)
  {
    InitializationDataExact(v, b, []);
    if SerializeInitializationData(v).Some? { WholeRest(SerializeInitializationData(v).value); }
  }
}

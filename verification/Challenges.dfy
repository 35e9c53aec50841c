// Building the challenge payloads: the program's loops, and the SDK's concatenations.
module Challenges {
  import opened Basics
  import opened Endian
  import opened Text
  import opened Nonce
  import opened Wire
  import opened WireExact
  import opened SmallVecIo
  import opened Preimages

  // ----- the program

  lemma {:induction false} AccountsBytesAppend(accounts: seq<AccountInfo>, last: AccountInfo)
    ensures AccountsBytes(accounts + [last]) == AccountsBytes(accounts) + AccountBytes(last)
  {
    if accounts == [] {
      assert [] + [last] == [last];
      assert [last][1..] == [];
      WholeRest(AccountBytes(last));
    } else {
      AccountsBytesAppend(accounts[1..], last);
      assert (accounts + [last])[1..] == accounts[1..] + [last];
      Regroup2(AccountBytes(accounts[0]), AccountsBytes(accounts[1..]), AccountBytes(last));
    }
  }

  method WriteAccounts(writer: Writer, accounts: seq<AccountInfo>)
    modifies writer
    ensures writer.written == old(writer.written) + AccountsBytes(accounts)
  {
    ghost var start := writer.written;
    var i := 0;
    WholeRest(start);
    while i < |accounts|
      invariant 0 <= i <= |accounts|
      invariant writer.written == start + AccountsBytes(accounts[..i])
    {
      var account := accounts[i];
      AccountsBytesAppend(accounts[..i], account);
      assert accounts[..i + 1] == accounts[..i] + [account];
      AccountPieces(start, AccountsBytes(accounts[..i]), account);
      writer.WriteAll(account.key);
      writer.WriteAll([Flag(account.isSigner)]);
      writer.WriteAll([Flag(account.isWritable)]);
      i := i + 1;
    }
    assert accounts[..i] == accounts;
  }

  lemma AccountPieces(start: bytes, done: bytes, a: AccountInfo)
    ensures start + done + a.key + [Flag(a.isSigner)] + [Flag(a.isWritable)] == start + (done + AccountBytes(a))
  {
    var f, g := [Flag(a.isSigner)], [Flag(a.isWritable)];
    assert f + g == [Flag(a.isSigner), Flag(a.isWritable)];
    FourPieces(start, done, a.key, f, g);
  }

  lemma FourPieces(s: bytes, d: bytes, k: bytes, f: bytes, g: bytes)
    ensures s + d + k + f + g == s + (d + (k + (f + g)))
  {
    assert s + d + k + f + g == (s + d) + (k + (f + g));
  }

  method WriteInstructions(writer: Writer, instructions: seq<CompiledInstruction>) returns (ok: bool)
    modifies writer
    ensures Writes(ok, old(writer.written), writer.written, SerializeEach(instructions))
  {
    ghost var start := writer.written;
    var i := 0;
    WholeRest(start);
    while i < |instructions|
      invariant 0 <= i <= |instructions|
      invariant Writes(true, start, writer.written, SerializeEach(instructions[..i]))
    {
      ghost var done := SerializeEach(instructions[..i]).value;
      var item := writer.WriteCompiledInstruction(instructions[i]);
      if !item { PrefixSerializes(instructions, i); return false; }
      EachAppend(instructions[..i], instructions[i]);
      assert instructions[..i + 1] == instructions[..i] + [instructions[i]];
      Regroup2(start, done, SerializeCompiledInstruction(instructions[i]).value);
      i := i + 1;
    }
    assert instructions[..i] == instructions;
    ok := true;
  }

  lemma PayloadPieces(slothash: bytes, signer: bytes, tag: bytes, count: bytes, accounts: bytes, more: bytes,
                      each: bytes)
    ensures [] + slothash + signer + tag + count + accounts + more + each
            == slothash + signer + (tag + (count + (accounts + (more + each))))
  {
    var head := slothash + signer;
    assert [] + slothash + signer == head;
    assert head + tag + count + accounts + more + each == head + tag + count + (accounts + (more + each));
    assert head + tag + count + (accounts + (more + each)) == head + (tag + (count + (accounts + (more + each))));
  }

  /** The execute payload, extended piece by piece. */
  method BuildExecutePayload(nonce: NonceData, accounts: seq<AccountInfo>, instructions: seq<CompiledInstruction>)
    returns (payload: Option<bytes>)
    ensures payload == ExecutePreimage(nonce, accounts, instructions)
  {
    var w := new Writer();
    w.WriteAll(nonce.slothash);
    w.WriteAll(nonce.signerKey);
    w.WriteAll(Ascii(EXECUTE_TAG));
    w.WriteAll([LowByte(|accounts|)]);
    WriteAccounts(w, accounts);
    w.WriteAll([LowByte(|instructions|)]);
    var ok := WriteInstructions(w, instructions);
    if !ok { return None; }
    PayloadPieces(nonce.slothash, nonce.signerKey, Ascii(EXECUTE_TAG), [LowByte(|accounts|)], AccountsBytes(accounts),
                  [LowByte(|instructions|)], SerializeEach(instructions).value);
    payload := Some(w.written);
  }

  lemma KeyPieces(slothash: bytes, signer: bytes, tag: bytes, key: bytes, expiration: bytes)
    ensures [] + slothash + signer + tag + key + expiration == slothash + signer + (tag + (key + expiration))
    ensures [] + slothash + signer + tag == slothash + signer + (tag + [])
  {
    var head := slothash + signer;
    assert [] + slothash + signer == head;
    assert head + tag + key + expiration == head + tag + (key + expiration);
  }

  method BuildRefreshPayload(nonce: NonceData, key: RawSessionKey) returns (payload: bytes)
    ensures payload == RefreshPreimage(nonce, key)
  {
    var w := new Writer();
    w.WriteAll(nonce.slothash);
    w.WriteAll(nonce.signerKey);
    w.WriteAll(Ascii(REFRESH_TAG));
    w.WriteAll(key.key);
    w.WriteAll(LE(key.expiration, 8));
    KeyPieces(nonce.slothash, nonce.signerKey, Ascii(REFRESH_TAG), key.key, LE(key.expiration, 8));
    payload := w.written;
  }

  method BuildInitializePayload(nonce: NonceData, key: Option<RawSessionKey>) returns (payload: bytes)
    ensures payload == InitializePreimage(nonce, key)
  {
    var w := new Writer();
    w.WriteAll(nonce.slothash);
    w.WriteAll(nonce.signerKey);
    w.WriteAll(Ascii(INITIALIZE_TAG));
    if key.Some? {
      w.WriteAll(key.value.key);
      w.WriteAll(LE(key.value.expiration, 8));
      KeyPieces(nonce.slothash, nonce.signerKey, Ascii(INITIALIZE_TAG), key.value.key, LE(key.value.expiration, 8));
    } else {
      KeyPieces(nonce.slothash, nonce.signerKey, Ascii(INITIALIZE_TAG), [], []);
    }
    payload := w.written;
  }

  // ----- the SDK

  function SerializeAccountMetas(metas: seq<AccountInfo>): bytes {
    if metas == [] then []
    else
      Concat([metas[0].key, [Flag(metas[0].isSigner)], [Flag(metas[0].isWritable)]]) + SerializeAccountMetas(metas[1..])
  }

  function SerializeAccountMetaList(metas: seq<AccountInfo>): Option<bytes> {
    if |metas| > 0xff then None else Some(Concat([[|metas|], SerializeAccountMetas(metas)]))
  }

  function TsExecutePreimage(recentSlotHash: bytes, nonceSigner: Key, metas: seq<AccountInfo>,
                             instructions: seq<CompiledInstruction>): Option<bytes>
  {
    var slothash :- ExpectLength(recentSlotHash, 32);
    var list :- SerializeAccountMetaList(metas);
    var compiled :- SerializeCompiledInstructions(instructions);
    Some(Concat([slothash, nonceSigner, Utf8(EXECUTE_TAG), list, compiled]))
  }

  function TsRefreshPreimage(recentSlotHash: bytes, nonceSigner: Key, key: SessionKey): Option<bytes> {
    var slothash :- ExpectLength(recentSlotHash, 32);
    var k :- SerializeSessionKey(key);
    Some(Concat([slothash, nonceSigner, Utf8(REFRESH_TAG), k]))
  }

  function TsInitializePreimage(recentSlotHash: bytes, payer: Key, key: Option<SessionKey>): Option<bytes> {
    var slothash :- ExpectLength(recentSlotHash, 32);
    match key
    case None => Some(Concat([slothash, payer, Utf8(INITIALIZE_TAG), []]))
    case Some(k) =>
      var b :- SerializeSessionKey(k);
      Some(Concat([slothash, payer, Utf8(INITIALIZE_TAG), b]))
  }

  lemma {:induction false} MetasAreAccounts(metas: seq<AccountInfo>)
    ensures SerializeAccountMetas(metas) == AccountsBytes(metas)
  {
    if metas != [] {
      var m := metas[0];
      MetasAreAccounts(metas[1..]);
      Concat3(m.key, [Flag(m.isSigner)], [Flag(m.isWritable)]);
      assert [Flag(m.isSigner)] + [Flag(m.isWritable)] == [Flag(m.isSigner), Flag(m.isWritable)];
    }
  }

  lemma Regrouped(slothash: bytes, signer: bytes, tag: bytes, count: bytes, accounts: bytes, part: bytes)
    ensures Concat([slothash, signer, tag, count + accounts, part])
            == slothash + signer + (tag + (count + (accounts + part)))
  {
    Concat5(slothash, signer, tag, count + accounts, part);
    Regroup2(count, accounts, part);
    Regroup2(slothash, signer, tag + (count + (accounts + part)));
  }

  lemma CompiledIsPart(instructions: seq<CompiledInstruction>)
    requires |instructions| <= 0xff
    ensures SerializeCompiledInstructions(instructions) == InstructionsPart(instructions)
  {
    if SerializeEach(instructions).Some? { Concat2([|instructions|], SerializeEach(instructions).value); }
    SmallCount(|instructions|);
  }

  lemma SmallCount(n: nat)
    requires n <= 0xff
    ensures LowByte(n) == n
  {
  }

  lemma {:induction false} PartsOfExecute(h: Hash, s: Key, tag: string, metas: seq<AccountInfo>, part: bytes)
    requires |metas| <= 0xff && IsAscii(tag)
    ensures SerializeAccountMetaList(metas).Some?
    ensures Concat([h, s, Utf8(tag), SerializeAccountMetaList(metas).value, part])
            == NonceBytes(NonceData(s, h)) + (Ascii(tag) + ([LowByte(|metas|)] + (AccountsBytes(metas) + part)))
  {
    MetasAreAccounts(metas);
    Concat2([|metas|], AccountsBytes(metas));
    SmallCount(|metas|);
    Utf8OfAscii(tag);
    Regrouped(h, s, Ascii(tag), [|metas|], AccountsBytes(metas), part);
  }

  lemma ExecuteChallengeRefuses(h: bytes, s: Key, metas: seq<AccountInfo>, v: seq<CompiledInstruction>)
    requires |h| != 32 || |metas| > 0xff || SerializeCompiledInstructions(v).None?
    ensures TsExecutePreimage(h, s, metas, v).None?
  {
  }

  lemma TagIsAscii()
    ensures IsAscii(EXECUTE_TAG)
  {
  }

  lemma ExecuteParts(h: Hash, s: Key, metas: seq<AccountInfo>, v: seq<CompiledInstruction>, list: bytes, part: bytes)
    requires SerializeAccountMetaList(metas) == Some(list) && SerializeCompiledInstructions(v) == Some(part)
    ensures TsExecutePreimage(h, s, metas, v) == Some(Concat([h, s, Utf8(EXECUTE_TAG), list, part]))
  {
  }

  lemma ExecuteChallengeBuilds(h: Hash, s: Key, metas: seq<AccountInfo>, v: seq<CompiledInstruction>)
    requires |metas| <= 0xff && |v| <= 0xff && InstructionsPart(v).Some?
    ensures TsExecutePreimage(h, s, metas, v) == ExecutePreimage(NonceData(s, h), metas, v)
  {
    CompiledIsPart(v);
    TagIsAscii();
    PartsOfExecute(h, s, EXECUTE_TAG, metas, InstructionsPart(v).value);
    ExecuteParts(h, s, metas, v, SerializeAccountMetaList(metas).value, InstructionsPart(v).value);
  }

  /** The SDK hashes the program's payload for every nonce and all accounts and instructions a byte can count, and no
      other. */
  lemma ExecuteChallengeAgrees(h: bytes, s: Key, metas: seq<AccountInfo>, v: seq<CompiledInstruction>)
    ensures TsExecutePreimage(h, s, metas, v)
            == if |h| == 32 && |metas| <= 0xff && |v| <= 0xff then ExecutePreimage(NonceData(s, h), metas, v) else None
  {
    if |v| <= 0xff { CompiledIsPart(v); }
    if |h| == 32 && |metas| <= 0xff && |v| <= 0xff && InstructionsPart(v).Some? {
      ExecuteChallengeBuilds(h, s, metas, v);
    } else {
      ExecuteChallengeRefuses(h, s, metas, v);
    }
  }

  lemma SerializedIsRaw(k: SessionKey)
    ensures SerializeSessionKey(k).Some? <==> IsRaw(k)
    ensures IsRaw(k) ==> SerializeSessionKey(k) == Some(SessionKeyBytes(k))
  {
    if IsRaw(k) { Concat2(k.key, LE(k.expiration, 8)); }
  }

  lemma NonceTagKey(slothash: bytes, signer: bytes, tag: bytes, key: bytes)
    ensures Concat([slothash, signer, tag, key]) == slothash + signer + (tag + key)
  {
    Concat4(slothash, signer, tag, key);
    Regroup2(slothash, signer, tag + key);
  }

  lemma {:induction false} PartsOfKey(h: Hash, s: Key, tag: string, key: bytes)
    requires IsAscii(tag)
    ensures Concat([h, s, Utf8(tag), key]) == NonceBytes(NonceData(s, h)) + (Ascii(tag) + key)
  {
    Utf8OfAscii(tag);
    NonceTagKey(h, s, Ascii(tag), key);
  }

  lemma RefreshChallengeAgrees(h: bytes, s: Key, k: SessionKey)
    ensures TsRefreshPreimage(h, s, k)
            == if |h| == 32 && IsRaw(k) then Some(RefreshPreimage(NonceData(s, h), k)) else None
  {
    SerializedIsRaw(k);
    if |h| == 32 && IsRaw(k) { PartsOfKey(h, s, REFRESH_TAG, SessionKeyBytes(k)); }
  }

  /** A session key the SDK was given, when the program could store it. */
  function AsRaw(k: Option<SessionKey>): Option<RawSessionKey>
    requires k.Some? ==> IsRaw(k.value)
  {
    match k
    case None => None
    case Some(key) => Some(key)
  }

  lemma InitializeChallengeAgrees(h: bytes, s: Key, k: Option<SessionKey>)
    ensures TsInitializePreimage(h, s, k)
            == if |h| == 32 && (k.Some? ==> IsRaw(k.value)) then Some(InitializePreimage(NonceData(s, h), AsRaw(k)))
               else None
  {
    match k
    case None => if |h| == 32 { PartsOfKey(h, s, INITIALIZE_TAG, []); }
    case Some(key) => if |h| == 32 { KeyedChallengeAgrees(h, s, key); } else { SerializedIsRaw(key); }
  }

  lemma KeyedChallengeAgrees(h: Hash, s: Key, key: SessionKey)
    ensures TsInitializePreimage(h, s, Some(key))
            == if IsRaw(key) then Some(InitializePreimage(NonceData(s, h), Some(key))) else None
  {
    SerializedIsRaw(key);
    if IsRaw(key) { PartsOfKey(h, s, INITIALIZE_TAG, SessionKeyBytes(key)); }
  }
}

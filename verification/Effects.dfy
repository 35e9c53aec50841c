// What a success of each instruction needs and does, over the bytes and accounts it was given.
module Effects {
  import opened Basics
  import opened Endian
  import opened Text
  import opened Nonce
  import opened ClientData
  import opened Wire
  import opened WireExact
  import opened Preimages
  import opened Challenges
  import opened Precompile
  import opened Passkey
  import opened Authorisation
  import opened Batch
  import opened Instructions

  // ----- addresses

  /** `passkey` and `execution_account`, byte by byte. */
  const PASSKEY_SEED: bytes := [112, 97, 115, 115, 107, 101, 121]
  const EXECUTION_SEED: bytes :=
    [101, 120, 101, 99, 117, 116, 105, 111, 110, 95, 97, 99, 99, 111, 117, 110, 116]

  lemma PasskeyAddressIs(rt: Runtime, publicKey: bytes)
    ensures PasskeyAddress(rt, publicKey) == rt.findProgramAddress([PASSKEY_SEED, rt.sha256(publicKey)])
  {
    assert Ascii("passkey") == PASSKEY_SEED;
  }

  function SigningScheme(b: byte): ExecutionScheme {
    if b == 0 then ExecutionAccount else ExternalAccountItself
  }

  /** The address that signs the calls: for scheme byte 0 the one derived from the account, for 1 the passkey's own. */
  function SigningAddress(rt: Runtime, account: Key, publicKey: bytes, b: byte): Key {
    if b == 0 then rt.findProgramAddress([account, EXECUTION_SEED])
    else rt.findProgramAddress([PASSKEY_SEED, rt.sha256(publicKey)])
  }

  lemma SchemeMeans(rt: Runtime, account: Key, p: Passkey, b: byte)
    ensures SchemeOf(b).Ok? <==> b == 0 || b == 1
    ensures SchemeOf(b).Ok? ==>
              SchemeOf(b).value == SigningScheme(b)
              && ExecutionKey(rt, account, p, SchemeOf(b).value) == SigningAddress(rt, account, p.publicKey, b)
    ensures b > 1 ==> SchemeOf(b) == Err(InvalidSignerExecutionScheme)
  {
    assert Ascii("execution_account") == EXECUTION_SEED;
    PasskeyAddressIs(rt, p.publicKey);
  }

  /** Equal addresses come from equal seeds, joined. */
  ghost predicate SeedsTold(rt: Runtime) {
    forall s, t :: rt.findProgramAddress(s) == rt.findProgramAddress(t) ==> Concat(s) == Concat(t)
  }

  /** An execution address is no passkey address, and belongs to one account only. */
  lemma ExecutionAddressesApart(rt: Runtime, account: Key, other: Key, publicKey: bytes)
    requires SeedsTold(rt)
    ensures SigningAddress(rt, account, publicKey, 0) != PasskeyAddress(rt, publicKey)
    ensures SigningAddress(rt, account, publicKey, 0) == SigningAddress(rt, other, publicKey, 0) <==> account == other
  {
    var own, others, passkey := [account, EXECUTION_SEED], [other, EXECUTION_SEED],
                                [PASSKEY_SEED, rt.sha256(publicKey)];
    PasskeyAddressIs(rt, publicKey);
    Concat2(account, EXECUTION_SEED);
    Concat2(other, EXECUTION_SEED);
    Concat2(PASSKEY_SEED, rt.sha256(publicKey));
    assert |Concat(own)| == 49 && |Concat(passkey)| == 39;
    if rt.findProgramAddress(own) == rt.findProgramAddress(others) {
      Cut(account, EXECUTION_SEED, other, EXECUTION_SEED);
    }
  }

  /** Passkey addresses are shared only by keys with one hash. */
  lemma PasskeyAddressesApart(rt: Runtime, publicKey: bytes, other: bytes)
    requires SeedsTold(rt) && PasskeyAddress(rt, publicKey) == PasskeyAddress(rt, other)
    ensures publicKey == other || Collides(rt, publicKey, other)
  {
    PasskeyAddressIs(rt, publicKey);
    PasskeyAddressIs(rt, other);
    Concat2(PASSKEY_SEED, rt.sha256(publicKey));
    Concat2(PASSKEY_SEED, rt.sha256(other));
    Cut(PASSKEY_SEED, rt.sha256(publicKey), PASSKEY_SEED, rt.sha256(other));
  }

  // ----- verification

  /** `hash || flags || counter || anything`, the counter in four big-endian bytes. */
  function AuthData(h: Hash, flags: byte, v: u32, extra: bytes): bytes {
    h + [flags] + BE(v, 4) + extra
  }

  /** The precompile checked, under the account's key, a message for this account: authenticator data of a present user
      with a counter of zero or above the stored one, then the hash of the document over the payload. */
  ghost predicate Authentic(rt: Runtime, transaction: seq<TxInstruction>, p: Passkey, params: Params, payload: bytes,
                            flags: byte, v: u32, extra: bytes, rpId: string)
  {
    && p.rp.length <= 32 && p.rp.buffer[..p.rp.length] == Utf8(rpId)
    && flags % 2 == 1 && (v == 0 || v > p.counter)
    && Carried(rt, transaction, p.publicKey,
               AuthData(p.rp.hash, flags, v, extra) + rt.sha256(Utf8(Template(MeaningOf(params), rpId, payload))))
  }

  /** The data after an assertion with counter v. */
  ghost predicate CountsTo(p: Passkey, v: u32, after: Passkey) {
    after == p.(counter := if v == 0 then p.counter else v)
  }

  ghost predicate LetsThrough(rt: Runtime, transaction: seq<TxInstruction>, p: Passkey, params: Params, payload: bytes,
                              after: Passkey)
  {
    exists flags, v, extra, rpId ::
      Authentic(rt, transaction, p, params, payload, flags, v, extra, rpId) && CountsTo(p, v, after)
  }

  lemma AuthenticAsserts(rt: Runtime, transaction: seq<TxInstruction>, p: Passkey, params: Params, payload: bytes,
                         flags: byte, v: u32, extra: bytes, rpId: string)
    requires Authentic(rt, transaction, p, params, payload, flags, v, extra, rpId)
    ensures VerifyPayload(rt, transaction, p, params, payload).Ok?
    ensures CountsTo(p, v, VerifyPayload(rt, transaction, p, params, payload).value)
  {
    var authData := AuthData(p.rp.hash, flags, v, extra);
    var message := authData + rt.sha256(Utf8(Template(MeaningOf(params), rpId, payload)));
    CounterReads(p.rp.hash, flags, v, extra);
    AuthDataParts(p.rp.hash, flags, v, extra);
    assert Signed(rt, transaction, p, message) && Asserts(rt, p, params, payload, message, authData, rpId);
    VerifyExact(rt, transaction, p, params, payload);
  }

  lemma AuthDataParts(h: Hash, flags: byte, v: u32, extra: bytes)
    ensures var a := AuthData(h, flags, v, extra); |a| >= 37 && a[..32] == h && a[32] == flags
  {
  }

  lemma SplitsAuthData(a: bytes) returns (v: u32)
    requires |a| >= 37
    ensures Counter(a) == v && a == AuthData(a[..32], a[32], v, a[37..])
  {
    v := Counter(a);
    WritesBackBE(a[33..37]);
  }

  lemma AssertedIsAuthentic(rt: Runtime, transaction: seq<TxInstruction>, p: Passkey, params: Params, payload: bytes)
    returns (flags: byte, v: u32, extra: bytes, rpId: string)
    requires VerifyPayload(rt, transaction, p, params, payload).Ok?
    ensures Authentic(rt, transaction, p, params, payload, flags, v, extra, rpId)
    ensures CountsTo(p, v, VerifyPayload(rt, transaction, p, params, payload).value)
  {
    VerifyExact(rt, transaction, p, params, payload);
    var message, authData, id :| Signed(rt, transaction, p, message)
                                 && Asserts(rt, p, params, payload, message, authData, id);
    v := SplitsAuthData(authData);
    flags, extra, rpId := authData[32], authData[37..], id;
  }

  /** Verification, over the bytes: it succeeds if and only if the transaction's first instruction is the precompile's,
      checks one signature, and checks it under the account's key over such a message; the stored counter then is that
      of the message, or stays if that is zero, and nothing else changes. */
  lemma VerifyMeans(rt: Runtime, transaction: seq<TxInstruction>, p: Passkey, params: Params, payload: bytes,
                    after: Passkey)
    ensures VerifyPayload(rt, transaction, p, params, payload) == Ok(after) <==>
              LetsThrough(rt, transaction, p, params, payload, after)
  {
    if VerifyPayload(rt, transaction, p, params, payload) == Ok(after) {
      var flags, v, extra, rpId := AssertedIsAuthentic(rt, transaction, p, params, payload);
    }
    if flags, v, extra, rpId :| Authentic(rt, transaction, p, params, payload, flags, v, extra, rpId)
                                && CountsTo(p, v, after) {
      AuthenticAsserts(rt, transaction, p, params, payload, flags, v, extra, rpId);
    }
  }

  // ----- what loading needs

  /** The account is the program's and holds this data, under version 1 and scheme 0. */
  predicate Held(rt: Runtime, account: AccountState, p: Passkey) {
    account == AccountState(rt.programId, Some(p)) && p.version == 1 && p.scheme == 0
  }

  lemma LoadDataMeans(rt: Runtime, account: AccountState, p: Passkey)
    ensures LoadData(rt, account) == Ok(p) <==> Held(rt, account, p)
  {
  }

  /** Outside any call, the signer signed, and entry `slot` of the list has this value modulo 1000 and is at most 149
      slots old. */
  ghost predicate NonceFits(env: Environment, signer: AccountInfo, slot: nat, value: int) {
    && env.stackHeight <= 1 && signer.isSigner && 0 <= value < 1000
    && slot < |env.slots| && env.slots[slot].height % 1000 == value
    && env.slots[0].height - env.slots[slot].height <= 149
  }

  lemma NonceMeans(env: Environment, signer: AccountInfo, value: u16, nonce: NonceData)
    requires Descending(env.slots)
    ensures ValidateNonce(env.slots, value, env.stackHeight, signer) == Ok(nonce) <==>
              exists slot: nat :: NonceFits(env, signer, slot, value)
                             && nonce == NonceData(signer.key, env.slots[slot].hash)
  {
    if ValidateNonce(env.slots, value, env.stackHeight, signer) == Ok(nonce) {
      var slot := ValidatedInWindow(env.slots, value, env.stackHeight, signer);
      assert NonceFits(env, signer, slot, value);
    }
    if slot: nat :| NonceFits(env, signer, slot, value) && nonce == NonceData(signer.key, env.slots[slot].hash) {
      WindowValidates(env.slots, slot, value, env.stackHeight, signer);
    }
  }

  /** The four accounts of a passkey-signed instruction. */
  ghost predicate AccountsFit(rt: Runtime, infos: seq<AccountInfo>, publicKey: bytes) {
    && |infos| >= 4
    && infos[0].isWritable && infos[0].key == rt.findProgramAddress([PASSKEY_SEED, rt.sha256(publicKey)])
    && infos[1].key == rt.instructionsSysvarId && infos[2].key == rt.slotHashesId
  }

  lemma LoadSignedMeans(rt: Runtime, env: Environment, infos: seq<AccountInfo>, account: AccountState, publicKey: bytes,
                        value: u16, p: Passkey, nonce: NonceData)
    requires Descending(env.slots) && |infos| >= 4
    ensures LoadSigned(rt, env, infos, account, publicKey, value) == Ok((p, nonce)) <==>
              Held(rt, account, p) && AccountsFit(rt, infos, publicKey)
              && exists slot: nat :: NonceFits(env, infos[3], slot, value)
                                && nonce == NonceData(infos[3].key, env.slots[slot].hash)
  {
    LoadDataMeans(rt, account, p);
    PasskeyAddressIs(rt, publicKey);
    NonceMeans(env, infos[3], value, nonce);
  }

  // ----- execute

  /** Everything a success of execution needs of its bytes, accounts and transaction, and the outcome it has. */
  ghost predicate Executes(rt: Runtime, env: Environment, infos: seq<AccountInfo>, account: AccountState, data: bytes,
                           outcome: Outcome, args: ExecuteArgs, v: VerificationData, p: Passkey, slot: nat,
                           payload: bytes, after: Passkey)
  {
    && SerializeExecuteArgs(args) == Some(data) && args.signatureScheme == 0 && args.signerExecutionScheme <= 1
    && SerializeVerificationData(v) == Some(args.extraVerificationData)
    && Held(rt, account, p) && AccountsFit(rt, infos, v.publicKey) && NonceFits(env, infos[3], slot, args.slothash)
    && ExecutePreimage(NonceData(infos[3].key, env.slots[slot].hash), infos[4..], args.instructions) == Some(payload)
    && LetsThrough(rt, env.transaction, p, v.params, rt.sha256(payload), after)
    && MakesCalls(infos[4..], SigningAddress(rt, infos[0].key, p.publicKey, args.signerExecutionScheme),
                  SigningScheme(args.signerExecutionScheme), rt.programId, env.invoke, args.instructions,
                  outcome.calls)
    && outcome.account == AccountState(rt.programId, Some(after))
  }

  lemma ActExecuteMeans(rt: Runtime, env: Environment, infos: seq<AccountInfo>, account: AccountState, l: Loaded,
                        instructions: seq<CompiledInstruction>, outcome: Outcome)
    requires account.data.Some?
    ensures ActExecute(rt, env, infos, account, l, instructions) == Ok(outcome) <==>
              exists payload, after :: Acts(rt, env, infos, account, l, instructions, outcome, payload, after)
  {
    var preimage := ExecutePreimage(l.nonce, infos, instructions);
    if preimage.Some? {
      ActsOnPayload(rt, env, infos, account, l, instructions, outcome, preimage.value);
      if outcome.account.data.Some? {
        var after := outcome.account.data.value;
        VerifyMeans(rt, env.transaction, l.passkey, l.params, rt.sha256(preimage.value), after);
        assert ActExecute(rt, env, infos, account, l, instructions) == Ok(outcome) <==>
                 Acts(rt, env, infos, account, l, instructions, outcome, preimage.value, after);
      }
    }
  }

  lemma ActsOnPayload(rt: Runtime, env: Environment, infos: seq<AccountInfo>, account: AccountState, l: Loaded,
                      instructions: seq<CompiledInstruction>, outcome: Outcome, payload: bytes)
    requires ExecutePreimage(l.nonce, infos, instructions) == Some(payload)
    ensures var verified := VerifyPayload(rt, env.transaction, l.passkey, l.params, rt.sha256(payload));
            ActExecute(rt, env, infos, account, l, instructions) == Ok(outcome) <==>
              verified.Ok? && outcome.account == account.(data := Some(verified.value))
              && MakesCalls(infos, l.executionKey, l.scheme, rt.programId, env.invoke, instructions, outcome.calls)
  {
    BatchMeans(ContextOf(rt, env, infos, l.executionKey, l.scheme), l.scheme, instructions, outcome.calls);
  }

  /** What loading needs and yields. */
  ghost predicate LoadsAs(rt: Runtime, env: Environment, infos: seq<AccountInfo>, account: AccountState,
                          args: ExecuteArgs, l: Loaded, v: VerificationData, slot: nat)
  {
    && SerializeVerificationData(v) == Some(args.extraVerificationData) && args.signerExecutionScheme <= 1
    && Held(rt, account, l.passkey) && AccountsFit(rt, infos, v.publicKey)
    && NonceFits(env, infos[3], slot, args.slothash)
    && l == Loaded(l.passkey, NonceData(infos[3].key, env.slots[slot].hash), v.params,
                   SigningAddress(rt, infos[0].key, l.passkey.publicKey, args.signerExecutionScheme),
                   SigningScheme(args.signerExecutionScheme))
  }

  lemma LoadExecuteMeans(rt: Runtime, env: Environment, infos: seq<AccountInfo>, account: AccountState,
                         args: ExecuteArgs, l: Loaded)
    requires Descending(env.slots) && 0 <= args.slothash < 0x1_0000
    ensures LoadExecute(rt, env, infos, account, args) == Ok(l) <==>
              exists v, slot :: LoadsAs(rt, env, infos, account, args, l, v, slot)
  {
    if LoadExecute(rt, env, infos, account, args) == Ok(l) {
      var v := Whole(TakeVerificationData(args.extraVerificationData)).value;
      VerificationDataRoundTrip(v, args.extraVerificationData);
      LoadSignedMeans(rt, env, infos, account, v.publicKey, args.slothash, l.passkey, l.nonce);
      SchemeMeans(rt, infos[0].key, l.passkey, args.signerExecutionScheme);
      var slot: nat :| NonceFits(env, infos[3], slot, args.slothash)
                       && l.nonce == NonceData(infos[3].key, env.slots[slot].hash);
      assert LoadsAs(rt, env, infos, account, args, l, v, slot);
    }
    if v, slot :| LoadsAs(rt, env, infos, account, args, l, v, slot) {
      VerificationDataRoundTrip(v, args.extraVerificationData);
      LoadSignedMeans(rt, env, infos, account, v.publicKey, args.slothash, l.passkey, l.nonce);
      SchemeMeans(rt, infos[0].key, l.passkey, args.signerExecutionScheme);
    }
  }

  lemma ParsedExecute(rt: Runtime, env: Environment, infos: seq<AccountInfo>, account: AccountState, data: bytes,
                      outcome: Outcome)
    returns (args: ExecuteArgs, l: Loaded)
    requires ProcessExecute(rt, env, infos, account, data) == Ok(outcome)
    ensures SerializeExecuteArgs(args) == Some(data) && args.signatureScheme == 0
    ensures 0 <= args.slothash < 0x1_0000 && |infos| >= 4 && LoadExecute(rt, env, infos, account, args) == Ok(l)
    ensures ActExecute(rt, env, infos[4..], account, l, args.instructions) == Ok(outcome)
  {
    args := Whole(TakeExecuteArgs(data)).value;
    ExecuteRoundTrip(args, data);
    l := LoadExecute(rt, env, infos, account, args).value;
  }

  lemma ExecutesAsProcessed(rt: Runtime, env: Environment, infos: seq<AccountInfo>, account: AccountState, data: bytes,
                            outcome: Outcome)
    returns (args: ExecuteArgs, v: VerificationData, p: Passkey, slot: nat, payload: bytes, after: Passkey)
    requires Descending(env.slots) && ProcessExecute(rt, env, infos, account, data) == Ok(outcome)
    ensures Executes(rt, env, infos, account, data, outcome, args, v, p, slot, payload, after)
  {
    var l;
    args, l := ParsedExecute(rt, env, infos, account, data, outcome);
    LoadExecuteMeans(rt, env, infos, account, args, l);
    v, slot :| LoadsAs(rt, env, infos, account, args, l, v, slot);
    p := l.passkey;
    payload, after := ActsAs(rt, env, infos[4..], account, l, args.instructions, outcome);
  }

  ghost predicate Acts(rt: Runtime, env: Environment, infos: seq<AccountInfo>, account: AccountState, l: Loaded,
                       instructions: seq<CompiledInstruction>, outcome: Outcome, payload: bytes, after: Passkey)
  {
    ExecutePreimage(l.nonce, infos, instructions) == Some(payload)
    && LetsThrough(rt, env.transaction, l.passkey, l.params, rt.sha256(payload), after)
    && MakesCalls(infos, l.executionKey, l.scheme, rt.programId, env.invoke, instructions, outcome.calls)
    && outcome.account == AccountState(account.owner, Some(after))
  }

  lemma ActsAs(rt: Runtime, env: Environment, infos: seq<AccountInfo>, account: AccountState, l: Loaded,
               instructions: seq<CompiledInstruction>, outcome: Outcome)
    returns (payload: bytes, after: Passkey)
    requires account.data.Some? && ActExecute(rt, env, infos, account, l, instructions) == Ok(outcome)
    ensures Acts(rt, env, infos, account, l, instructions, outcome, payload, after)
  {
    ActExecuteMeans(rt, env, infos, account, l, instructions, outcome);
    payload, after :| Acts(rt, env, infos, account, l, instructions, outcome, payload, after);
  }

  lemma ProcessedAsExecutes(rt: Runtime, env: Environment, infos: seq<AccountInfo>, account: AccountState, data: bytes,
                            outcome: Outcome, args: ExecuteArgs, v: VerificationData, p: Passkey, slot: nat,
                            payload: bytes, after: Passkey)
    requires Descending(env.slots)
    requires Executes(rt, env, infos, account, data, outcome, args, v, p, slot, payload, after)
    ensures ProcessExecute(rt, env, infos, account, data) == Ok(outcome)
  {
    ExecuteRoundTrip(args, data);
    var l := Loaded(p, NonceData(infos[3].key, env.slots[slot].hash), v.params,
                    SigningAddress(rt, infos[0].key, p.publicKey, args.signerExecutionScheme),
                    SigningScheme(args.signerExecutionScheme));
    assert LoadsAs(rt, env, infos, account, args, l, v, slot);
    LoadExecuteMeans(rt, env, infos, account, args, l);
    assert Acts(rt, env, infos[4..], account, l, args.instructions, outcome, payload, after);
    ActExecuteMeans(rt, env, infos[4..], account, l, args.instructions, outcome);
  }

  /** Execution, over the bytes: it succeeds with this outcome if and only if `Executes` holds of some parts. */
  lemma ExecuteMeans(rt: Runtime, env: Environment, infos: seq<AccountInfo>, account: AccountState, data: bytes,
                     outcome: Outcome)
    requires Descending(env.slots)
    ensures ProcessExecute(rt, env, infos, account, data) == Ok(outcome) <==>
              exists args, v, p, slot, payload, after ::
                Executes(rt, env, infos, account, data, outcome, args, v, p, slot, payload, after)
  {
    if ProcessExecute(rt, env, infos, account, data) == Ok(outcome) {
      var args, v, p, slot, payload, after := ExecutesAsProcessed(rt, env, infos, account, data, outcome);
    }
    if args, v, p, slot, payload, after :|
      Executes(rt, env, infos, account, data, outcome, args, v, p, slot, payload, after) {
      ProcessedAsExecutes(rt, env, infos, account, data, outcome, args, v, p, slot, payload, after);
    }
  }

  lemma LoadedSigns(rt: Runtime, env: Environment, infos: seq<AccountInfo>, account: AccountState, args: ExecuteArgs,
                    l: Loaded)
    requires 0 <= args.slothash < 0x1_0000 && LoadExecute(rt, env, infos, account, args) == Ok(l)
    ensures |infos| >= 4 && account == AccountState(rt.programId, Some(l.passkey)) && args.signerExecutionScheme <= 1
    ensures l.executionKey == SigningAddress(rt, infos[0].key, l.passkey.publicKey, args.signerExecutionScheme)
  {
    LoadedExecute(rt, env, infos, account, args);
    SchemeMeans(rt, infos[0].key, l.passkey, args.signerExecutionScheme);
  }

  /** Whatever the slot list, the calls of a successful execution are those of its instructions over the accounts after
      the first four: none enters this program, and each is signed for by the address its scheme byte names. */
  lemma ExecutedCalls(rt: Runtime, env: Environment, infos: seq<AccountInfo>, account: AccountState, data: bytes,
                      outcome: Outcome)
    returns (args: ExecuteArgs, p: Passkey)
    requires ProcessExecute(rt, env, infos, account, data) == Ok(outcome)
    ensures SerializeExecuteArgs(args) == Some(data) && |infos| >= 4 && account == AccountState(rt.programId, Some(p))
    ensures |outcome.calls| == |args.instructions| && args.signerExecutionScheme <= 1
    ensures forall k :: 0 <= k < |outcome.calls| ==>
              && 4 + args.instructions[k].programIdIndex < |infos|
              && outcome.calls[k].programId == infos[4 + args.instructions[k].programIdIndex].key != rt.programId
              && outcome.calls[k].data == args.instructions[k].data
              && outcome.calls[k].signedFor
                 == if args.signerExecutionScheme == 0 then rt.findProgramAddress([infos[0].key, EXECUTION_SEED])
                    else rt.findProgramAddress([PASSKEY_SEED, rt.sha256(p.publicKey)])
  {
    var l;
    args, l := ParsedExecute(rt, env, infos, account, data, outcome);
    LoadedSigns(rt, env, infos, account, args, l);
    p := l.passkey;
    var payload, after := ActsAs(rt, env, infos[4..], account, l, args.instructions, outcome);
  }

  // ----- sessioned execute

  /** The clock as the program compares it: a negative one counts from 2^64 down. */
  function Clock(now: i64): u64 { if now >= 0 then now else now + 0x1_0000_0000_0000_0000 }

  ghost predicate ExecutesSessioned(rt: Runtime, env: Environment, infos: seq<AccountInfo>, account: AccountState,
                                    data: bytes, outcome: Outcome, args: SessionedArgs, p: Passkey)
  {
    && SerializeSessionedArgs(args) == Some(data) && args.signatureScheme == 0 && args.signerExecutionScheme <= 1
    && |infos| >= 2 && Held(rt, account, p)
    && infos[1].isSigner && infos[1].key == p.sessionKey.key && Clock(env.now) <= p.sessionKey.expiration
    && MakesCalls(infos[2..], SigningAddress(rt, infos[0].key, p.publicKey, args.signerExecutionScheme),
                  SigningScheme(args.signerExecutionScheme), rt.programId, env.invoke, args.instructions,
                  outcome.calls)
    && outcome.account == account
  }

  lemma SessionCheckMeans(p: Passkey, signer: AccountInfo, now: i64)
    ensures IsValidSessionKey(p, signer, now).Ok? <==>
              signer.isSigner && signer.key == p.sessionKey.key && Clock(now) <= p.sessionKey.expiration
    ensures !signer.isSigner ==> IsValidSessionKey(p, signer, now) == Err(SessionSignerNotASigner)
    ensures signer.isSigner && signer.key != p.sessionKey.key ==>
              IsValidSessionKey(p, signer, now) == Err(InvalidSessionKey)
    ensures signer.isSigner && signer.key == p.sessionKey.key && p.sessionKey.expiration < Clock(now) ==>
              IsValidSessionKey(p, signer, now) == Err(SessionKeyExpired)
  {
  }

  lemma ActSessionedMeans(rt: Runtime, env: Environment, infos: seq<AccountInfo>, account: AccountState, p: Passkey,
                          args: SessionedArgs, outcome: Outcome)
    requires |infos| >= 2
    ensures ActSessioned(rt, env, infos, account, p, args) == Ok(outcome) <==>
              args.signerExecutionScheme <= 1
              && infos[1].isSigner && infos[1].key == p.sessionKey.key && Clock(env.now) <= p.sessionKey.expiration
              && MakesCalls(infos[2..], SigningAddress(rt, infos[0].key, p.publicKey, args.signerExecutionScheme),
                            SigningScheme(args.signerExecutionScheme), rt.programId, env.invoke, args.instructions,
                            outcome.calls)
              && outcome.account == account
  {
    var b := args.signerExecutionScheme;
    SessionCheckMeans(p, infos[1], env.now);
    SchemeMeans(rt, infos[0].key, p, b);
    BatchMeans(ContextOf(rt, env, infos[2..], SigningAddress(rt, infos[0].key, p.publicKey, b), SigningScheme(b)),
               SigningScheme(b), args.instructions, outcome.calls);
  }

  /** Sessioned execution, over the bytes: it succeeds with this outcome if and only if the live session key of the
      account signed, and the calls are those of its instructions over the accounts after the first two. */
  lemma SessionedMeans(rt: Runtime, env: Environment, infos: seq<AccountInfo>, account: AccountState, data: bytes,
                       outcome: Outcome)
    ensures ProcessSessioned(rt, env, infos, account, data) == Ok(outcome) <==>
              exists args, p :: ExecutesSessioned(rt, env, infos, account, data, outcome, args, p)
  {
    if ProcessSessioned(rt, env, infos, account, data) == Ok(outcome) {
      var args := Whole(TakeSessionedArgs(data)).value;
      SessionedRoundTrip(args, data);
      var p := LoadData(rt, account).value;
      LoadDataMeans(rt, account, p);
      ActSessionedMeans(rt, env, infos, account, p, args, outcome);
      assert ExecutesSessioned(rt, env, infos, account, data, outcome, args, p);
    }
    if args, p :| ExecutesSessioned(rt, env, infos, account, data, outcome, args, p) {
      SessionedRoundTrip(args, data);
      LoadDataMeans(rt, account, p);
      ActSessionedMeans(rt, env, infos, account, p, args, outcome);
    }
  }

  /** The calls of a successful sessioned execution are those of its instructions over the accounts after the first
      two: none enters this program, and each is signed for by the address its scheme byte names. */
  lemma SessionedSound(rt: Runtime, env: Environment, infos: seq<AccountInfo>, account: AccountState, data: bytes,
                       outcome: Outcome)
    returns (args: SessionedArgs, p: Passkey)
    requires ProcessSessioned(rt, env, infos, account, data) == Ok(outcome)
    ensures SerializeSessionedArgs(args) == Some(data) && |infos| >= 2
    ensures account == outcome.account == AccountState(rt.programId, Some(p))
    ensures infos[1].isSigner && infos[1].key == p.sessionKey.key && Clock(env.now) <= p.sessionKey.expiration
    ensures |outcome.calls| == |args.instructions| && args.signerExecutionScheme <= 1
    ensures forall k :: 0 <= k < |outcome.calls| ==>
              && 2 + args.instructions[k].programIdIndex < |infos|
              && outcome.calls[k].programId == infos[2 + args.instructions[k].programIdIndex].key != rt.programId
              && outcome.calls[k].data == args.instructions[k].data
              && outcome.calls[k].signedFor
                 == if args.signerExecutionScheme == 0 then rt.findProgramAddress([infos[0].key, EXECUTION_SEED])
                    else rt.findProgramAddress([PASSKEY_SEED, rt.sha256(p.publicKey)])
  {
    SessionedMeans(rt, env, infos, account, data, outcome);
    args, p :| ExecutesSessioned(rt, env, infos, account, data, outcome, args, p);
  }

  // ----- refresh

  ghost predicate Refreshes(rt: Runtime, env: Environment, infos: seq<AccountInfo>, account: AccountState, data: bytes,
                            outcome: Outcome, args: RefreshArgs, v: VerificationData, p: Passkey, slot: nat,
                            after: Passkey)
  {
    && SerializeRefreshArgs(args) == Some(data) && args.signatureScheme == 0 && IsRaw(args.sessionKey)
    && SerializeVerificationData(v) == Some(args.verificationData)
    && Held(rt, account, p) && AccountsFit(rt, infos, v.publicKey) && NonceFits(env, infos[3], slot, args.slothash)
    && LetsThrough(rt, env.transaction, p, v.params,
                     rt.sha256(RefreshPreimage(NonceData(infos[3].key, env.slots[slot].hash), args.sessionKey)), after)
    && StoresUntil(env.now, args.sessionKey, after, outcome.account, rt.programId)
    && outcome.calls == []
  }

  /** The key is stored until now plus its duration, modulo 2^64, which is at most 7776000 seconds ahead. */
  ghost predicate StoresUntil(now: i64, key: RawSessionKey, p: Passkey, account: AccountState, owner: Key) {
    var until := (now + key.expiration) % 0x1_0000_0000_0000_0000;
    until <= (now + 7776000) % 0x1_0000_0000_0000_0000
    && account == AccountState(owner, Some(p.(sessionKey := SessionKey(key.key, until))))
  }

  lemma LimitMeans(now: i64)
    ensures LatestExpiration(now) == (now + 7776000) % 0x1_0000_0000_0000_0000
  {
  }

  lemma StoringMeans(p: Passkey, key: RawSessionKey, now: i64, account: AccountState, owner: Key)
    ensures (account.data.Some? && account.owner == owner
             && UpdateSessionKey(p, SessionKey(key.key, RefreshedExpiration(now, key.expiration)), now)
                == Ok(account.data.value)) <==>
              StoresUntil(now, key, p, account, owner)
  {
    LimitMeans(now);
    RefreshIsModular(now, key.expiration);
  }

  ghost predicate RefreshActsAs(rt: Runtime, env: Environment, p: Passkey, nonce: NonceData, params: Params,
                                key: RawSessionKey, account: AccountState, owner: Key, after: Passkey)
  {
    LetsThrough(rt, env.transaction, p, params, rt.sha256(RefreshPreimage(nonce, key)), after)
    && StoresUntil(env.now, key, after, account, owner)
  }

  lemma ActRefreshMeans(rt: Runtime, env: Environment, p: Passkey, nonce: NonceData, params: Params, key: RawSessionKey,
                        account: AccountState, owner: Key)
    ensures (account.data.Some? && account.owner == owner
             && ActRefresh(rt, env, p, nonce, params, key) == Ok(account.data.value)) <==>
              exists after :: RefreshActsAs(rt, env, p, nonce, params, key, account, owner, after)
  {
    var challenge := rt.sha256(RefreshPreimage(nonce, key));
    var verified := VerifyPayload(rt, env.transaction, p, params, challenge);
    if verified.Ok? {
      VerifyMeans(rt, env.transaction, p, params, challenge, verified.value);
      StoringMeans(verified.value, key, env.now, account, owner);
      assert StoresUntil(env.now, key, verified.value, account, owner) <==>
               RefreshActsAs(rt, env, p, nonce, params, key, account, owner, verified.value);
    }
    if after :| RefreshActsAs(rt, env, p, nonce, params, key, account, owner, after) {
      VerifyMeans(rt, env.transaction, p, params, challenge, after);
    }
  }

  ghost predicate RefreshLoadsAs(rt: Runtime, env: Environment, infos: seq<AccountInfo>, account: AccountState,
                                 args: RefreshArgs, p: Passkey, nonce: NonceData, params: Params, v: VerificationData,
                                 slot: nat)
  {
    && SerializeVerificationData(v) == Some(args.verificationData) && params == v.params
    && Held(rt, account, p) && AccountsFit(rt, infos, v.publicKey) && NonceFits(env, infos[3], slot, args.slothash)
    && nonce == NonceData(infos[3].key, env.slots[slot].hash)
  }

  lemma LoadRefreshMeans(rt: Runtime, env: Environment, infos: seq<AccountInfo>, account: AccountState,
                         args: RefreshArgs, p: Passkey, nonce: NonceData, params: Params)
    requires Descending(env.slots) && 0 <= args.slothash < 0x1_0000
    ensures LoadRefresh(rt, env, infos, account, args) == Ok((p, nonce, params)) <==>
              exists v, slot :: RefreshLoadsAs(rt, env, infos, account, args, p, nonce, params, v, slot)
  {
    if LoadRefresh(rt, env, infos, account, args) == Ok((p, nonce, params)) {
      var v := Whole(TakeVerificationData(args.verificationData)).value;
      VerificationDataRoundTrip(v, args.verificationData);
      LoadSignedMeans(rt, env, infos, account, v.publicKey, args.slothash, p, nonce);
      var slot: nat :| NonceFits(env, infos[3], slot, args.slothash)
                       && nonce == NonceData(infos[3].key, env.slots[slot].hash);
      assert RefreshLoadsAs(rt, env, infos, account, args, p, nonce, params, v, slot);
    }
    if v, slot :| RefreshLoadsAs(rt, env, infos, account, args, p, nonce, params, v, slot) {
      VerificationDataRoundTrip(v, args.verificationData);
      LoadSignedMeans(rt, env, infos, account, v.publicKey, args.slothash, p, nonce);
    }
  }

  lemma ParsedRefresh(rt: Runtime, env: Environment, infos: seq<AccountInfo>, account: AccountState, data: bytes,
                      outcome: Outcome)
    returns (args: RefreshArgs, p: Passkey, nonce: NonceData, params: Params)
    requires ProcessRefresh(rt, env, infos, account, data) == Ok(outcome)
    ensures SerializeRefreshArgs(args) == Some(data) && args.signatureScheme == 0 && IsRaw(args.sessionKey)
    ensures 0 <= args.slothash < 0x1_0000 && LoadRefresh(rt, env, infos, account, args) == Ok((p, nonce, params))
    ensures outcome.calls == [] && outcome.account.data.Some? && outcome.account.owner == account.owner
    ensures ActRefresh(rt, env, p, nonce, params, args.sessionKey) == Ok(outcome.account.data.value)
  {
    args := Whole(TakeRefreshArgs(data)).value;
    RefreshRoundTrip(args, data);
    var l := LoadRefresh(rt, env, infos, account, args).value;
    p, nonce, params := l.0, l.1, l.2;
  }

  lemma RefreshesAsProcessed(rt: Runtime, env: Environment, infos: seq<AccountInfo>, account: AccountState, data: bytes,
                             outcome: Outcome)
    returns (args: RefreshArgs, v: VerificationData, p: Passkey, slot: nat, after: Passkey)
    requires Descending(env.slots) && ProcessRefresh(rt, env, infos, account, data) == Ok(outcome)
    ensures Refreshes(rt, env, infos, account, data, outcome, args, v, p, slot, after)
  {
    var nonce, params;
    args, p, nonce, params := ParsedRefresh(rt, env, infos, account, data, outcome);
    LoadRefreshMeans(rt, env, infos, account, args, p, nonce, params);
    v, slot :| RefreshLoadsAs(rt, env, infos, account, args, p, nonce, params, v, slot);
    ActRefreshMeans(rt, env, p, nonce, params, args.sessionKey, outcome.account, rt.programId);
    after :| RefreshActsAs(rt, env, p, nonce, params, args.sessionKey, outcome.account, rt.programId, after);
  }

  lemma ProcessedAsRefreshes(rt: Runtime, env: Environment, infos: seq<AccountInfo>, account: AccountState, data: bytes,
                             outcome: Outcome, args: RefreshArgs, v: VerificationData, p: Passkey, slot: nat,
                             after: Passkey)
    requires Descending(env.slots)
    requires Refreshes(rt, env, infos, account, data, outcome, args, v, p, slot, after)
    ensures ProcessRefresh(rt, env, infos, account, data) == Ok(outcome)
  {
    RefreshRoundTrip(args, data);
    var nonce := NonceData(infos[3].key, env.slots[slot].hash);
    assert RefreshLoadsAs(rt, env, infos, account, args, p, nonce, v.params, v, slot);
    LoadRefreshMeans(rt, env, infos, account, args, p, nonce, v.params);
    assert RefreshActsAs(rt, env, p, nonce, v.params, args.sessionKey, outcome.account, rt.programId, after);
    ActRefreshMeans(rt, env, p, nonce, v.params, args.sessionKey, outcome.account, rt.programId);
  }

  /** Refreshing, over the bytes. */
  lemma RefreshMeans(rt: Runtime, env: Environment, infos: seq<AccountInfo>, account: AccountState, data: bytes,
                     outcome: Outcome)
    requires Descending(env.slots)
    ensures ProcessRefresh(rt, env, infos, account, data) == Ok(outcome) <==>
              exists args, v, p, slot, after ::
                Refreshes(rt, env, infos, account, data, outcome, args, v, p, slot, after)
  {
    if ProcessRefresh(rt, env, infos, account, data) == Ok(outcome) {
      var args, v, p, slot, after := RefreshesAsProcessed(rt, env, infos, account, data, outcome);
    }
    if args, v, p, slot, after :| Refreshes(rt, env, infos, account, data, outcome, args, v, p, slot, after) {
      ProcessedAsRefreshes(rt, env, infos, account, data, outcome, args, v, p, slot, after);
    }
  }

  // ----- initialise

  /** The new account's fields: version 1, scheme 0, the id in 32 bytes with its length and hash, the key, the session
      key or zeros, counter 0. */
  function NewFields(rt: Runtime, i: InitializationData, key: Option<RawSessionKey>): Passkey
    requires |i.rpId| <= 32 && |i.publicKey| == 33
  {
    Passkey(1, 0, RelyingParty(|i.rpId|, i.rpId + Zeros(32 - |i.rpId|), rt.sha256(i.rpId)), i.publicKey,
            if key.Some? then key.value else SessionKey(Zeros(32), 0), 0)
  }

  ghost predicate Initializes(rt: Runtime, env: Environment, infos: seq<AccountInfo>, account: AccountState,
                              data: bytes, outcome: Outcome, args: InitializeArgs, i: InitializationData, slot: nat,
                              after: Passkey)
  {
    && SerializeInitializeArgs(args) == Some(data) && args.signatureScheme == 0
    && (args.sessionKey.Some? ==>
          IsRaw(args.sessionKey.value)
          && args.sessionKey.value.expiration <= (env.now + 7776000) % 0x1_0000_0000_0000_0000)
    && SerializeInitializationData(i) == Some(args.initializationData) && |i.publicKey| == 33
    && |i.rpId| <= 32 && 34 !in i.rpId
    && account == AccountState(rt.systemProgramId, None) && env.creates
    && |infos| >= 5 && infos[0].key == rt.findProgramAddress([PASSKEY_SEED, rt.sha256(i.publicKey)])
    && infos[2].key == rt.instructionsSysvarId && infos[3].key == rt.slotHashesId
    && infos[4].key == rt.systemProgramId && NonceFits(env, infos[1], slot, args.slothash)
    && LetsThrough(rt, env.transaction, NewFields(rt, i, AsRaw(args.sessionKey)), i.params,
                     rt.sha256(InitializePreimage(NonceData(infos[1].key, env.slots[slot].hash),
                                                  AsRaw(args.sessionKey))), after)
    && outcome == Outcome(AccountState(rt.programId, Some(after)), [])
  }

  lemma NewFieldsMean(rt: Runtime, i: InitializationData, key: Option<RawSessionKey>, now: i64)
    requires |i.rpId| <= 32 && |i.publicKey| == 33
    ensures InitializeAccount(BLANK, NewRelyingParty(rt, i.rpId), i.publicKey, key, now)
            == if key.Some? && key.value.expiration > (now + 7776000) % 0x1_0000_0000_0000_0000
               then Err(InvalidSessionKeyExpiration) else Ok(NewFields(rt, i, key))
  {
    LimitMeans(now);
  }

  lemma ActInitializeMeans(rt: Runtime, env: Environment, nonce: NonceData, i: InitializationData,
                           key: Option<RawSessionKey>, after: Passkey)
    requires |i.rpId| <= 32 && |i.publicKey| == 33
    ensures ActInitialize(rt, env, nonce, i, key) == Ok(after) <==>
              env.creates
              && (key.Some? ==> key.value.expiration <= (env.now + 7776000) % 0x1_0000_0000_0000_0000)
              && LetsThrough(rt, env.transaction, NewFields(rt, i, key), i.params,
                               rt.sha256(InitializePreimage(nonce, key)), after)
  {
    NewFieldsMean(rt, i, key, env.now);
    VerifyMeans(rt, env.transaction, NewFields(rt, i, key), i.params, rt.sha256(InitializePreimage(nonce, key)),
                after);
  }

  ghost predicate InitializeLoadsAs(rt: Runtime, env: Environment, infos: seq<AccountInfo>, account: AccountState,
                                    args: InitializeArgs, nonce: NonceData, i: InitializationData, slot: nat)
  {
    && SerializeInitializationData(i) == Some(args.initializationData)
    && |i.rpId| <= 32 && 34 !in i.rpId && account == AccountState(rt.systemProgramId, None)
    && |infos| >= 5 && infos[0].key == rt.findProgramAddress([PASSKEY_SEED, rt.sha256(i.publicKey)])
    && infos[2].key == rt.instructionsSysvarId && infos[3].key == rt.slotHashesId
    && infos[4].key == rt.systemProgramId && NonceFits(env, infos[1], slot, args.slothash)
    && nonce == NonceData(infos[1].key, env.slots[slot].hash)
  }

  lemma LoadInitializeMeans(rt: Runtime, env: Environment, infos: seq<AccountInfo>, account: AccountState,
                            args: InitializeArgs, nonce: NonceData, i: InitializationData)
    requires Descending(env.slots) && 0 <= args.slothash < 0x1_0000
    ensures LoadInitialize(rt, env, infos, account, args) == Ok((nonce, i)) <==>
              exists slot :: InitializeLoadsAs(rt, env, infos, account, args, nonce, i, slot)
  {
    InitializationDataRoundTrip(i, args.initializationData);
    PasskeyAddressIs(rt, i.publicKey);
    if |infos| >= 5 {
      NonceMeans(env, infos[1], args.slothash, nonce);
      if LoadInitialize(rt, env, infos, account, args) == Ok((nonce, i)) {
        var slot: nat :| NonceFits(env, infos[1], slot, args.slothash)
                         && nonce == NonceData(infos[1].key, env.slots[slot].hash);
        assert InitializeLoadsAs(rt, env, infos, account, args, nonce, i, slot);
      }
    }
  }

  lemma ParsedInitialize(rt: Runtime, env: Environment, infos: seq<AccountInfo>, account: AccountState, data: bytes,
                         outcome: Outcome)
    returns (args: InitializeArgs, nonce: NonceData, i: InitializationData, after: Passkey)
    requires ProcessInitialize(rt, env, infos, account, data) == Ok(outcome)
    ensures SerializeInitializeArgs(args) == Some(data) && args.signatureScheme == 0
    ensures args.sessionKey.Some? ==> IsRaw(args.sessionKey.value)
    ensures 0 <= args.slothash < 0x1_0000 && LoadInitialize(rt, env, infos, account, args) == Ok((nonce, i))
    ensures |i.publicKey| == 33 && |i.rpId| <= 32
            && ActInitialize(rt, env, nonce, i, AsRaw(args.sessionKey)) == Ok(after)
    ensures outcome == Outcome(AccountState(rt.programId, Some(after)), [])
  {
    args := Whole(TakeInitializeArgs(data)).value;
    InitializeRoundTrip(args, data);
    var l := LoadInitialize(rt, env, infos, account, args).value;
    nonce, i, after := l.0, l.1, outcome.account.data.value;
  }

  lemma InitializesAsProcessed(rt: Runtime, env: Environment, infos: seq<AccountInfo>, account: AccountState,
                               data: bytes, outcome: Outcome)
    returns (args: InitializeArgs, i: InitializationData, slot: nat, after: Passkey)
    requires Descending(env.slots) && ProcessInitialize(rt, env, infos, account, data) == Ok(outcome)
    ensures Initializes(rt, env, infos, account, data, outcome, args, i, slot, after)
  {
    var nonce;
    args, nonce, i, after := ParsedInitialize(rt, env, infos, account, data, outcome);
    LoadInitializeMeans(rt, env, infos, account, args, nonce, i);
    slot :| InitializeLoadsAs(rt, env, infos, account, args, nonce, i, slot);
    ActInitializeMeans(rt, env, nonce, i, AsRaw(args.sessionKey), after);
  }

  lemma ProcessedAsInitializes(rt: Runtime, env: Environment, infos: seq<AccountInfo>, account: AccountState,
                               data: bytes, outcome: Outcome, args: InitializeArgs, i: InitializationData, slot: nat,
                               after: Passkey)
    requires Descending(env.slots)
    requires Initializes(rt, env, infos, account, data, outcome, args, i, slot, after)
    ensures ProcessInitialize(rt, env, infos, account, data) == Ok(outcome)
  {
    InitializeRoundTrip(args, data);
    var nonce := NonceData(infos[1].key, env.slots[slot].hash);
    assert InitializeLoadsAs(rt, env, infos, account, args, nonce, i, slot);
    LoadInitializeMeans(rt, env, infos, account, args, nonce, i);
    ActInitializeMeans(rt, env, nonce, i, AsRaw(args.sessionKey), after);
  }

  /** Initialising, over the bytes. */
  lemma InitializeMeans(rt: Runtime, env: Environment, infos: seq<AccountInfo>, account: AccountState, data: bytes,
                        outcome: Outcome)
    requires Descending(env.slots)
    ensures ProcessInitialize(rt, env, infos, account, data) == Ok(outcome) <==>
              exists args, i, slot, after ::
                Initializes(rt, env, infos, account, data, outcome, args, i, slot, after)
  {
    if ProcessInitialize(rt, env, infos, account, data) == Ok(outcome) {
      var args, i, slot, after := InitializesAsProcessed(rt, env, infos, account, data, outcome);
    }
    if args, i, slot, after :| Initializes(rt, env, infos, account, data, outcome, args, i, slot, after) {
      ProcessedAsInitializes(rt, env, infos, account, data, outcome, args, i, slot, after);
    }
  }
}

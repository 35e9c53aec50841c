// From the SDK to the chain: whatever the SDK builds, signed by a browser that follows the standard, the program
// accepts.
module Acceptance {
  import opened Basics
  import opened Endian
  import opened Text
  import opened Der
  import opened Nonce
  import opened ClientData
  import opened Wire
  import opened WireExact
  import opened Preimages
  import opened Challenges
  import opened Precompile
  import opened Passkey
  import opened Authorisation
  import opened Batch
  import opened Instructions
  import Effects

  /** The passkey's side of a call. */
  datatype Assertion = Assertion(rpId: string, publicKey: PublicKey, signature: bytes, params: Params, authData: bytes)

  /** The nonce of a call: a slot, its hash and the account that signs the transaction. */
  datatype Recent = Recent(slot: u64, slotHash: Hash, signer: Key)

  // ----- what the SDK builds for every call

  /** `authData || sha256(clientDataJson)` */
  function BuildPrecompileMessage(rt: Runtime, clientDataJson: bytes, authData: bytes): bytes {
    authData + rt.sha256(clientDataJson)
  }

  /** The message over the template document, which a browser that follows the standard signs. */
  function SignedMessage(rt: Runtime, s: Assertion, challenge: Hash): bytes {
    BuildPrecompileMessage(rt, ReconstructTs(s.params, s.rpId, challenge), s.authData)
  }

  function ChallengeOf(rt: Runtime, payload: Option<bytes>): Option<Hash> {
    var b :- payload;
    Some(rt.sha256(b))
  }

  function VerificationOf(s: Assertion): VerificationData { VerificationData(s.publicKey, s.params) }

  /** The four accounts before any others, with the flags the runtime reports for these metas. */
  function FirstAccounts(rt: Runtime, s: Assertion, n: Recent): seq<AccountInfo> {
    [AccountInfo(PasskeyAddress(rt, s.publicKey), false, true),
     AccountInfo(rt.instructionsSysvarId, false, false),
     AccountInfo(rt.slotHashesId, false, false),
     AccountInfo(n.signer, true, true)]
  }

  // ----- the situation

  /** The SDK's precompile instruction, over the signed message, comes first in the transaction. */
  ghost predicate PrecompileFirst(rt: Runtime, transaction: seq<TxInstruction>, s: Assertion, challenge: Hash) {
    && |transaction| > 0
    && transaction[0].programId == rt.precompileId
    && InstructionData(s.signature, SignedMessage(rt, s, challenge), s.publicKey) == Some(transaction[0].data)
  }

  /** The account of this key and relying party. */
  predicate IsAccountOf(rt: Runtime, s: Assertion, p: Passkey) {
    |Utf8(s.rpId)| <= 32 && p.version == VERSION && p.scheme == P256_WEBAUTHN && p.publicKey == s.publicKey
    && p.rp == NewRelyingParty(rt, Utf8(s.rpId))
  }

  /** The authenticator names the relying party and a present user, with a zero or larger counter. */
  predicate Authenticates(rt: Runtime, s: Assertion, stored: u64) {
    |s.authData| >= 37 && s.authData[..32] == rt.sha256(Utf8(s.rpId)) && s.authData[32] % 2 == 1
    && (Counter(s.authData) == 0 || Counter(s.authData) > stored)
  }

  /** The slot is listed with its hash, at most 149 slots old. */
  ghost predicate IsRecent(env: Environment, n: Recent) {
    Descending(env.slots) && env.stackHeight <= 1
    && exists i :: InWindow(env.slots, i, Truncate(n.slot)) && env.slots[i].hash == n.slotHash
  }

  // ----- shared steps

  lemma NonceAccepted(env: Environment, n: Recent, info: AccountInfo)
    requires IsRecent(env, n) && info.isSigner && info.key == n.signer
    ensures ValidateNonce(env.slots, Truncate(n.slot), env.stackHeight, info) == Ok(NonceData(n.signer, n.slotHash))
  {
    var i :| InWindow(env.slots, i, Truncate(n.slot)) && env.slots[i].hash == n.slotHash;
    WindowValidates(env.slots, i, Truncate(n.slot), env.stackHeight, info);
  }

  lemma LoadsSigned(rt: Runtime, env: Environment, s: Assertion, n: Recent, others: seq<AccountInfo>, p: Passkey)
    requires IsAccountOf(rt, s, p) && IsRecent(env, n)
    ensures LoadSigned(rt, env, FirstAccounts(rt, s, n) + others, AccountState(rt.programId, Some(p)), s.publicKey,
                       Truncate(n.slot))
            == Ok((p, NonceData(n.signer, n.slotHash)))
  {
    NonceAccepted(env, n, (FirstAccounts(rt, s, n) + others)[3]);
  }

  /** The parser recovers the compact signature, the key and the message. */
  lemma RecoversSignature(rt: Runtime, transaction: seq<TxInstruction>, s: Assertion, challenge: Hash)
    requires PrecompileFirst(rt, transaction, s, challenge)
    ensures CompactOf(s.signature).Some?
    ensures FirstSignature(rt, transaction)
            == Ok(SignaturePayload(CompactOf(s.signature).value, s.publicKey, SignedMessage(rt, s, challenge)))
  {
    CompactHas64(s.signature);
    ParserRecovers(transaction, CompactOf(s.signature).value, s.publicKey, SignedMessage(rt, s, challenge));
  }

  lemma MessageAsserts(rt: Runtime, s: Assertion, p: Passkey, challenge: Hash)
    requires IsAccountOf(rt, s, p) && Authenticates(rt, s, p.counter)
    ensures Asserts(rt, p, s.params, challenge, SignedMessage(rt, s, challenge), s.authData, s.rpId)
  {
    RpIdReadsBack(rt, Utf8(s.rpId));
    TsIsTemplate(s.params, s.rpId, challenge);
  }

  lemma Verifies(rt: Runtime, transaction: seq<TxInstruction>, s: Assertion, p: Passkey, challenge: Hash)
    requires IsAccountOf(rt, s, p) && Authenticates(rt, s, p.counter) && PrecompileFirst(rt, transaction, s, challenge)
    ensures VerifyPayload(rt, transaction, p, s.params, challenge) == Ok(Counted(p, Counter(s.authData)))
  {
    RecoversSignature(rt, transaction, s, challenge);
    MessageAsserts(rt, s, p, challenge);
    AssertionAccepted(rt, p, s.params, challenge, SignedMessage(rt, s, challenge), s.authData, s.rpId);
  }

  // ----- execute

  function SchemeByte(scheme: ExecutionScheme): byte {
    match scheme case ExecutionAccount => 0 case ExternalAccountItself => 1
  }

  function ExecuteArgsOf(n: Recent, scheme: ExecutionScheme, instructions: seq<CompiledInstruction>,
                         verification: bytes): ExecuteArgs {
    ExecuteArgs(P256_WEBAUTHN, SchemeByte(scheme), Truncate(n.slot), verification, instructions)
  }

  function BuildExecute(s: Assertion, n: Recent, scheme: ExecutionScheme, instructions: seq<CompiledInstruction>):
    Option<bytes> {
    var verification :- SerializeVerificationData(VerificationOf(s));
    SerializeExecuteArgs(ExecuteArgsOf(n, scheme, instructions, verification))
  }

  /** What loading yields. */
  function LoadedOf(rt: Runtime, s: Assertion, n: Recent, scheme: ExecutionScheme, p: Passkey): Loaded {
    Loaded(p, NonceData(n.signer, n.slotHash), s.params,
           ExecutionKey(rt, PasskeyAddress(rt, s.publicKey), p, scheme), scheme)
  }

  lemma LoadsExecute(rt: Runtime, env: Environment, s: Assertion, n: Recent, scheme: ExecutionScheme,
                     metas: seq<AccountInfo>,
                     instructions: seq<CompiledInstruction>, p: Passkey, v: bytes)
    requires IsAccountOf(rt, s, p) && IsRecent(env, n) && SerializeVerificationData(VerificationOf(s)) == Some(v)
    ensures LoadExecute(rt, env, FirstAccounts(rt, s, n) + metas, AccountState(rt.programId, Some(p)),
                        ExecuteArgsOf(n, scheme, instructions, v)) == Ok(LoadedOf(rt, s, n, scheme, p))
  {
    VerificationDataRoundTrip(VerificationOf(s), v);
    LoadsSigned(rt, env, s, n, metas, p);
    assert SchemeOf(SchemeByte(scheme)) == Ok(scheme);
  }

  /** The outcome of an accepted execution: its batch, with the counter moved. */
  function BatchOutcome(rt: Runtime, env: Environment, l: Loaded, metas: seq<AccountInfo>,
                        instructions: seq<CompiledInstruction>,
                        counter: u32): Result<Outcome>
  {
    var calls :- RunBatch(ContextOf(rt, env, metas, l.executionKey, l.scheme), instructions, []);
    Ok(Outcome(AccountState(rt.programId, Some(Counted(l.passkey, counter))), calls))
  }

  lemma ActsExecute(rt: Runtime, env: Environment, s: Assertion, n: Recent, l: Loaded, metas: seq<AccountInfo>,
                    instructions: seq<CompiledInstruction>, challenge: Hash)
    requires IsAccountOf(rt, s, l.passkey) && Authenticates(rt, s, l.passkey.counter)
    requires l.nonce == NonceData(n.signer, n.slotHash) && l.params == s.params
    requires ChallengeOf(rt, TsExecutePreimage(n.slotHash, n.signer, metas, instructions)) == Some(challenge)
    requires PrecompileFirst(rt, env.transaction, s, challenge)
    ensures ActExecute(rt, env, metas, AccountState(rt.programId, Some(l.passkey)), l, instructions)
            == BatchOutcome(rt, env, l, metas, instructions, Counter(s.authData))
  {
    ExecuteChallengeAgrees(n.slotHash, n.signer, metas, instructions);
    Verifies(rt, env.transaction, s, l.passkey, challenge);
  }

  /** Composed acceptance. For every execution the SDK can build, with its precompile instruction first in the
      transaction, a browser that signed the template over the SDK's challenge, and a slot in the window: the parser
      recovers exactly the SDK's signature, key and message, and the instruction is its batch of calls, nothing else. */
  lemma ExecuteAccepted(rt: Runtime, env: Environment, s: Assertion, n: Recent, scheme: ExecutionScheme,
                        metas: seq<AccountInfo>,
                        instructions: seq<CompiledInstruction>, p: Passkey, challenge: Hash, data: bytes)
    requires BuildExecute(s, n, scheme, instructions) == Some(data)
    requires ChallengeOf(rt, TsExecutePreimage(n.slotHash, n.signer, metas, instructions)) == Some(challenge)
    requires PrecompileFirst(rt, env.transaction, s, challenge)
    requires IsAccountOf(rt, s, p) && Authenticates(rt, s, p.counter) && IsRecent(env, n)
    ensures CompactOf(s.signature).Some?
    ensures FirstSignature(rt, env.transaction)
            == Ok(SignaturePayload(CompactOf(s.signature).value, s.publicKey, SignedMessage(rt, s, challenge)))
    ensures ProcessExecute(rt, env, FirstAccounts(rt, s, n) + metas, AccountState(rt.programId, Some(p)), data)
            == BatchOutcome(rt, env, LoadedOf(rt, s, n, scheme, p), metas, instructions, Counter(s.authData))
  {
    var v := SerializeVerificationData(VerificationOf(s)).value;
    ExecuteRoundTrip(ExecuteArgsOf(n, scheme, instructions, v), data);
    LoadsExecute(rt, env, s, n, scheme, metas, instructions, p, v);
    assert (FirstAccounts(rt, s, n) + metas)[4..] == metas;
    ActsExecute(rt, env, s, n, LoadedOf(rt, s, n, scheme, p), metas, instructions, challenge);
    RecoversSignature(rt, env.transaction, s, challenge);
  }

  // ----- the situation arises

  lemma VerificationIsShort(s: Assertion)
    ensures var v := SerializeVerificationData(VerificationOf(s)); v.Some? && |v.value| <= 37
  {
    var port := SerializeOptionU16(s.params.port);
    if s.params.port.Some? { Concat2([1], LE(s.params.port.value, 2)); }
    Concat2([s.params.typeAndFlags], port);
    Concat2(s.publicKey, SerializeParams(s.params));
  }

  lemma Builds(s: Assertion, n: Recent, scheme: ExecutionScheme, instructions: seq<CompiledInstruction>)
    requires SerializeCompiledInstructions(instructions).Some?
    ensures BuildExecute(s, n, scheme, instructions).Some?
  {
    VerificationIsShort(s);
  }

  lemma MessageHas69(rt: Runtime, s: Assertion, challenge: Hash)
    requires |s.authData| == 37
    ensures |SignedMessage(rt, s, challenge)| == 69
  {
  }

  lemma DataBuilds(r: nat, v: nat, message: bytes, publicKey: PublicKey)
    requires InRange(r) && InRange(v) && |message| <= 0xffff
    ensures InstructionData(EncodeSignature(r, v), message, publicKey).Some?
  {
    CompactOfEncoding(r, v);
  }

  lemma PrecompileBuilds(rt: Runtime, s: Assertion, challenge: Hash, r: nat, v: nat)
    returns (transaction: seq<TxInstruction>)
    requires InRange(r) && InRange(v) && s.signature == EncodeSignature(r, v) && |s.authData| == 37
    ensures PrecompileFirst(rt, transaction, s, challenge)
  {
    MessageHas69(rt, s, challenge);
    DataBuilds(r, v, SignedMessage(rt, s, challenge), s.publicKey);
    var data := InstructionData(s.signature, SignedMessage(rt, s, challenge), s.publicKey);
    transaction := [TxInstruction(rt.precompileId, data.value, _ => 0)];
  }

  /** The authenticator data of a present user, without a counter. */
  function PlainAuthData(rt: Runtime, rpId: string): (a: bytes)
    ensures |a| == 37 && a[..32] == rt.sha256(Utf8(rpId)) && a[32] % 2 == 1
  {
    rt.sha256(Utf8(rpId)) + [1, 0, 0, 0, 0]
  }

  lemma ChallengeArises(rt: Runtime, n: Recent, metas: seq<AccountInfo>, instructions: seq<CompiledInstruction>)
    returns (challenge: Hash)
    requires |metas| <= 0xff && SerializeCompiledInstructions(instructions).Some?
    ensures ChallengeOf(rt, TsExecutePreimage(n.slotHash, n.signer, metas, instructions)) == Some(challenge)
  {
    challenge := rt.sha256(TsExecutePreimage(n.slotHash, n.signer, metas, instructions).value);
  }

  lemma RecentArises(n: Recent, now: i64, transaction: seq<TxInstruction>, invoke: (seq<Call>, Call) -> bool)
    returns (env: Environment)
    ensures env.transaction == transaction && env.now == now && env.creates && env.invoke == invoke
    ensures IsRecent(env, n)
  {
    env := Environment([SlotHash(n.slot, n.slotHash)], now, 1, transaction, true, invoke);
    assert InWindow(env.slots, 0, Truncate(n.slot));
  }

  lemma HonestAccount(rt: Runtime, s: Assertion)
    requires |Utf8(s.rpId)| <= 32 && s.authData == PlainAuthData(rt, s.rpId)
    ensures IsAccountOf(rt, s, FreshAccount(rt, s, None)) && Authenticates(rt, s, FreshAccount(rt, s, None).counter)
  {
  }

  /** The hypotheses of `ExecuteAccepted` are met by an honest user of every key, relying party id of at most 32 bytes,
      signature, nonce, and batch that the wire format can carry. */
  lemma HonestExecution(rt: Runtime, rpId: string, publicKey: PublicKey, params: Params, r: nat, v: nat, n: Recent,
                        scheme: ExecutionScheme, metas: seq<AccountInfo>, instructions: seq<CompiledInstruction>,
                        now: i64, invoke: (seq<Call>, Call) -> bool)
    returns (env: Environment, s: Assertion, challenge: Hash, data: bytes)
    requires |Utf8(rpId)| <= 32 && InRange(r) && InRange(v)
    requires |metas| <= 0xff && SerializeCompiledInstructions(instructions).Some?
    ensures s.rpId == rpId && s.publicKey == publicKey && s.params == params && s.signature == EncodeSignature(r, v)
    ensures env.now == now && env.invoke == invoke
    ensures BuildExecute(s, n, scheme, instructions) == Some(data)
    ensures ChallengeOf(rt, TsExecutePreimage(n.slotHash, n.signer, metas, instructions)) == Some(challenge)
    ensures PrecompileFirst(rt, env.transaction, s, challenge) && IsRecent(env, n)
    ensures IsAccountOf(rt, s, FreshAccount(rt, s, None)) && Authenticates(rt, s, FreshAccount(rt, s, None).counter)
  {
    s := Assertion(rpId, publicKey, EncodeSignature(r, v), params, PlainAuthData(rt, rpId));
    Builds(s, n, scheme, instructions);
    data := BuildExecute(s, n, scheme, instructions).value;
    challenge := ChallengeArises(rt, n, metas, instructions);
    var transaction := PrecompileBuilds(rt, s, challenge, r, v);
    env := RecentArises(n, now, transaction, invoke);
    HonestAccount(rt, s);
  }

  // ----- sessioned execute

  /** The SDK's accounts: the session key signs, and nothing else needs to. */
  function SessionAccounts(rt: Runtime, publicKey: PublicKey, session: Key): seq<AccountInfo> {
    [AccountInfo(PasskeyAddress(rt, publicKey), false, true), AccountInfo(session, true, false)]
  }

  function BuildSessioned(scheme: ExecutionScheme, instructions: seq<CompiledInstruction>): Option<bytes> {
    SerializeSessionedArgs(SessionedArgs(P256_WEBAUTHN, SchemeByte(scheme), instructions))
  }

  /** For every sessioned execution the SDK can build, on an account that holds the session key, live and signing, the
      instruction succeeds with exactly the calls of its batch over the accounts after the first two, and leaves the
      account as it was. */
  lemma SessionedAccepted(rt: Runtime, env: Environment, p: Passkey, scheme: ExecutionScheme, metas: seq<AccountInfo>,
                          instructions: seq<CompiledInstruction>, data: bytes, outcome: Outcome)
    requires BuildSessioned(scheme, instructions) == Some(data)
    requires p.version == 1 && p.scheme == 0 && Effects.Clock(env.now) <= p.sessionKey.expiration
    ensures var account, accounts := AccountState(rt.programId, Some(p)),
                                     SessionAccounts(rt, p.publicKey, p.sessionKey.key);
            ProcessSessioned(rt, env, accounts + metas, account, data) == Ok(outcome) <==>
              MakesCalls(metas,
                         Effects.SigningAddress(rt, accounts[0].key, p.publicKey, SchemeByte(scheme)),
                         scheme, rt.programId, env.invoke, instructions, outcome.calls)
              && outcome.account == account
  {
    var account, accounts := AccountState(rt.programId, Some(p)), SessionAccounts(rt, p.publicKey, p.sessionKey.key);
    var args := SessionedArgs(P256_WEBAUTHN, SchemeByte(scheme), instructions);
    SessionedRoundTrip(args, data);
    Effects.LoadDataMeans(rt, account, p);
    assert (accounts + metas)[2..] == metas;
    assert Effects.SigningScheme(SchemeByte(scheme)) == scheme;
    Effects.ActSessionedMeans(rt, env, accounts + metas, account, p, args, outcome);
  }

  // ----- refresh

  function RefreshArgsOf(n: Recent, key: SessionKey, verification: bytes): RefreshArgs {
    RefreshArgs(Truncate(n.slot), P256_WEBAUTHN, verification, key)
  }

  function BuildRefresh(s: Assertion, n: Recent, key: SessionKey): Option<bytes> {
    var verification :- SerializeVerificationData(VerificationOf(s));
    SerializeRefreshArgs(RefreshArgsOf(n, key, verification))
  }

  lemma ActsRefresh(rt: Runtime, env: Environment, s: Assertion, n: Recent, key: RawSessionKey, p: Passkey,
                    challenge: Hash)
    requires IsAccountOf(rt, s, p) && Authenticates(rt, s, p.counter)
    requires ChallengeOf(rt, TsRefreshPreimage(n.slotHash, n.signer, key)) == Some(challenge)
    requires PrecompileFirst(rt, env.transaction, s, challenge)
    ensures ActRefresh(rt, env, p, NonceData(n.signer, n.slotHash), s.params, key)
            == UpdateSessionKey(Counted(p, Counter(s.authData)),
                                SessionKey(key.key, RefreshedExpiration(env.now, key.expiration)), env.now)
  {
    RefreshChallengeAgrees(n.slotHash, n.signer, key);
    Verifies(rt, env.transaction, s, p, challenge);
  }

  lemma LoadsRefresh(rt: Runtime, env: Environment, s: Assertion, n: Recent, key: SessionKey, p: Passkey, v: bytes)
    requires IsAccountOf(rt, s, p) && IsRecent(env, n) && SerializeVerificationData(VerificationOf(s)) == Some(v)
    ensures LoadRefresh(rt, env, FirstAccounts(rt, s, n), AccountState(rt.programId, Some(p)), RefreshArgsOf(n, key, v))
            == Ok((p, NonceData(n.signer, n.slotHash), s.params))
  {
    VerificationDataRoundTrip(VerificationOf(s), v);
    LoadsSigned(rt, env, s, n, [], p);
    assert FirstAccounts(rt, s, n) + [] == FirstAccounts(rt, s, n);
  }

  /** The outcome of an accepted refresh: what storing the key until the computed expiration gives. */
  function RefreshOutcome(rt: Runtime, p: Passkey, counter: u32, key: RawSessionKey, now: i64): Result<Outcome> {
    var refreshed := SessionKey(key.key, RefreshedExpiration(now, key.expiration));
    var stored :- UpdateSessionKey(Counted(p, counter), refreshed, now);
    Ok(Outcome(AccountState(rt.programId, Some(stored)), []))
  }

  lemma RefreshParses(s: Assertion, n: Recent, key: SessionKey, data: bytes) returns (v: bytes)
    requires BuildRefresh(s, n, key) == Some(data)
    ensures SerializeVerificationData(VerificationOf(s)) == Some(v)
    ensures Whole(TakeRefreshArgs(data)) == Some(RefreshArgsOf(n, key, v))
  {
    v := SerializeVerificationData(VerificationOf(s)).value;
    RefreshRoundTrip(RefreshArgsOf(n, key, v), data);
  }

  lemma RefreshProceeds(rt: Runtime, env: Environment, infos: seq<AccountInfo>, account: AccountState, data: bytes,
                        args: RefreshArgs, loaded: (Passkey, NonceData, Params))
    requires Whole(TakeRefreshArgs(data)) == Some(args) && args.signatureScheme == P256_WEBAUTHN
    requires LoadRefresh(rt, env, infos, account, args) == Ok(loaded)
    ensures ProcessRefresh(rt, env, infos, account, data)
            == match ActRefresh(rt, env, loaded.0, loaded.1, loaded.2, args.sessionKey)
               case Ok(p) => Ok(Outcome(account.(data := Some(p)), []))
               case Err(e) => Err(e)
  {
  }

  /** A refresh the SDK built is accepted up to its duration: it stores the key, or refuses the duration, as
      `Passkey.RefreshArithmetic` says. */
  lemma RefreshAccepted(rt: Runtime, env: Environment, s: Assertion, n: Recent, key: RawSessionKey, p: Passkey,
                        challenge: Hash, data: bytes)
    requires BuildRefresh(s, n, key) == Some(data)
    requires ChallengeOf(rt, TsRefreshPreimage(n.slotHash, n.signer, key)) == Some(challenge)
    requires PrecompileFirst(rt, env.transaction, s, challenge)
    requires IsAccountOf(rt, s, p) && Authenticates(rt, s, p.counter) && IsRecent(env, n)
    ensures ProcessRefresh(rt, env, FirstAccounts(rt, s, n), AccountState(rt.programId, Some(p)), data)
            == RefreshOutcome(rt, p, Counter(s.authData), key, env.now)
  {
    var v := RefreshParses(s, n, key, data);
    LoadsRefresh(rt, env, s, n, key, p, v);
    ActsRefresh(rt, env, s, n, key, p, challenge);
    RefreshProceeds(rt, env, FirstAccounts(rt, s, n), AccountState(rt.programId, Some(p)), data,
                    RefreshArgsOf(n, key, v), (p, NonceData(n.signer, n.slotHash), s.params));
  }

  lemma RefreshBuilds(s: Assertion, n: Recent, key: RawSessionKey)
    ensures BuildRefresh(s, n, key).Some?
  {
    VerificationIsShort(s);
    SerializedIsRaw(key);
  }

  lemma RefreshChallengeArises(rt: Runtime, n: Recent, key: RawSessionKey) returns (challenge: Hash)
    ensures ChallengeOf(rt, TsRefreshPreimage(n.slotHash, n.signer, key)) == Some(challenge)
  {
    RefreshChallengeAgrees(n.slotHash, n.signer, key);
    challenge := rt.sha256(TsRefreshPreimage(n.slotHash, n.signer, key).value);
  }

  /** The hypotheses of `RefreshAccepted` are met by an honest user, for every session key and duration. */
  lemma HonestRefresh(rt: Runtime, rpId: string, publicKey: PublicKey, params: Params, r: nat, v: nat, n: Recent,
                      key: RawSessionKey, now: i64, invoke: (seq<Call>, Call) -> bool)
    returns (env: Environment, s: Assertion, challenge: Hash, data: bytes)
    requires |Utf8(rpId)| <= 32 && InRange(r) && InRange(v)
    ensures s.rpId == rpId && s.publicKey == publicKey && s.params == params && s.signature == EncodeSignature(r, v)
    ensures env.now == now
    ensures BuildRefresh(s, n, key) == Some(data)
    ensures ChallengeOf(rt, TsRefreshPreimage(n.slotHash, n.signer, key)) == Some(challenge)
    ensures PrecompileFirst(rt, env.transaction, s, challenge) && IsRecent(env, n)
    ensures IsAccountOf(rt, s, FreshAccount(rt, s, None)) && Authenticates(rt, s, FreshAccount(rt, s, None).counter)
  {
    s := Assertion(rpId, publicKey, EncodeSignature(r, v), params, PlainAuthData(rt, rpId));
    RefreshBuilds(s, n, key);
    data := BuildRefresh(s, n, key).value;
    challenge := RefreshChallengeArises(rt, n, key);
    var transaction := PrecompileBuilds(rt, s, challenge, r, v);
    env := RecentArises(n, now, transaction, invoke);
    HonestAccount(rt, s);
  }

  // ----- initialise

  function InitializationOf(s: Assertion): InitializationData {
    InitializationData(Utf8(s.rpId), s.publicKey, s.params)
  }

  function BuildInitialize(s: Assertion, n: Recent, key: Option<SessionKey>): Option<bytes> {
    var initialization :- SerializeInitializationData(InitializationOf(s));
    SerializeInitializeArgs(InitializeArgsOf(s, n, key, initialization))
  }

  /** The SDK's accounts: the payer signs and pays. */
  function InitializeAccounts(rt: Runtime, s: Assertion, n: Recent): seq<AccountInfo> {
    [AccountInfo(PasskeyAddress(rt, s.publicKey), false, true),
     AccountInfo(n.signer, true, true),
     AccountInfo(rt.instructionsSysvarId, false, false),
     AccountInfo(rt.slotHashesId, false, false),
     AccountInfo(rt.systemProgramId, false, false)]
  }

  lemma LoadsInitialize(rt: Runtime, env: Environment, s: Assertion, n: Recent, key: Option<SessionKey>, i: bytes)
    requires SerializeInitializationData(InitializationOf(s)) == Some(i)
    requires |Utf8(s.rpId)| <= 32 && QUOTE_BYTE !in Utf8(s.rpId) && IsRecent(env, n)
    ensures LoadInitialize(rt, env, InitializeAccounts(rt, s, n), AccountState(rt.systemProgramId, None),
                           InitializeArgsOf(s, n, key, i))
            == Ok((NonceData(n.signer, n.slotHash), InitializationOf(s)))
  {
    InitializationDataRoundTrip(InitializationOf(s), i);
    NonceAccepted(env, n, InitializeAccounts(rt, s, n)[1]);
  }

  /** The account right after initialisation, before the assertion's counter. */
  function FreshAccount(rt: Runtime, s: Assertion, key: Option<RawSessionKey>): Passkey
    requires |Utf8(s.rpId)| <= 32
  {
    Passkey(VERSION, P256_WEBAUTHN, NewRelyingParty(rt, Utf8(s.rpId)), s.publicKey,
            if key.Some? then key.value else BLANK.sessionKey, 0)
  }

  lemma SetsFields(rt: Runtime, s: Assertion, key: Option<RawSessionKey>, now: i64)
    requires |Utf8(s.rpId)| <= 32 && (key.Some? ==> key.value.expiration <= LatestExpiration(now))
    ensures InitializeAccount(BLANK, NewRelyingParty(rt, Utf8(s.rpId)), s.publicKey, key, now)
            == Ok(FreshAccount(rt, s, key))
    ensures IsAccountOf(rt, s, FreshAccount(rt, s, key)) && FreshAccount(rt, s, key).counter == 0
  {
  }

  lemma ActsInitialize(rt: Runtime, env: Environment, s: Assertion, nonce: NonceData, key: Option<RawSessionKey>,
                       challenge: Hash)
    requires |Utf8(s.rpId)| <= 32 && env.creates && Authenticates(rt, s, 0)
    requires key.Some? ==> key.value.expiration <= LatestExpiration(env.now)
    requires challenge == rt.sha256(InitializePreimage(nonce, key))
    requires PrecompileFirst(rt, env.transaction, s, challenge)
    ensures ActInitialize(rt, env, nonce, InitializationOf(s), key)
            == Ok(Counted(FreshAccount(rt, s, key), Counter(s.authData)))
  {
    SetsFields(rt, s, key, env.now);
    Verifies(rt, env.transaction, s, FreshAccount(rt, s, key), challenge);
  }

  function InitializeArgsOf(s: Assertion, n: Recent, key: Option<SessionKey>, i: bytes): InitializeArgs {
    InitializeArgs(Truncate(n.slot), P256_WEBAUTHN, i, key)
  }

  lemma InitializeParses(s: Assertion, n: Recent, key: Option<SessionKey>, data: bytes) returns (i: bytes)
    requires BuildInitialize(s, n, key) == Some(data)
    ensures SerializeInitializationData(InitializationOf(s)) == Some(i)
    ensures Whole(TakeInitializeArgs(data)) == Some(InitializeArgsOf(s, n, key, i))
  {
    i := SerializeInitializationData(InitializationOf(s)).value;
    InitializeRoundTrip(InitializeArgsOf(s, n, key, i), data);
  }

  /** What parses, loads and acts is processed. */
  lemma InitializeProceeds(rt: Runtime, env: Environment, infos: seq<AccountInfo>, account: AccountState, data: bytes,
                           args: InitializeArgs, loaded: (NonceData, InitializationData), p: Passkey)
    requires Whole(TakeInitializeArgs(data)) == Some(args) && args.signatureScheme == P256_WEBAUTHN
    requires LoadInitialize(rt, env, infos, account, args) == Ok(loaded)
    requires ActInitialize(rt, env, loaded.0, loaded.1, AsRaw(args.sessionKey)) == Ok(p)
    ensures ProcessInitialize(rt, env, infos, account, data)
            == Ok(Outcome(AccountState(rt.programId, Some(p)), []))
  {
  }

  lemma InitializeChallengeIs(rt: Runtime, n: Recent, key: Option<SessionKey>, challenge: Hash)
    requires ChallengeOf(rt, TsInitializePreimage(n.slotHash, n.signer, key)) == Some(challenge)
    ensures challenge == rt.sha256(InitializePreimage(NonceData(n.signer, n.slotHash), AsRaw(key)))
  {
    InitializeChallengeAgrees(n.slotHash, n.signer, key);
  }

  /** An initialisation the SDK built, for a relying party of at most 32 quote-free bytes and a session key within the
      limit, is accepted and leaves exactly the account asked for. */
  lemma InitializeAccepted(rt: Runtime, env: Environment, s: Assertion, n: Recent, key: Option<SessionKey>,
                           challenge: Hash, data: bytes)
    requires BuildInitialize(s, n, key) == Some(data)
    requires ChallengeOf(rt, TsInitializePreimage(n.slotHash, n.signer, key)) == Some(challenge)
    requires PrecompileFirst(rt, env.transaction, s, challenge)
    requires |Utf8(s.rpId)| <= 32 && QUOTE_BYTE !in Utf8(s.rpId) && IsRecent(env, n) && env.creates
             && Authenticates(rt, s, 0)
    requires key.Some? ==> IsRaw(key.value) && key.value.expiration <= LatestExpiration(env.now)
    ensures ProcessInitialize(rt, env, InitializeAccounts(rt, s, n), AccountState(rt.systemProgramId, None), data)
            == Ok(Outcome(AccountState(rt.programId,
                                       Some(Counted(FreshAccount(rt, s, AsRaw(key)), Counter(s.authData)))), []))
  {
    var i := InitializeParses(s, n, key, data);
    LoadsInitialize(rt, env, s, n, key, i);
    InitializeChallengeIs(rt, n, key, challenge);
    ActsInitialize(rt, env, s, NonceData(n.signer, n.slotHash), AsRaw(key), challenge);
    InitializeProceeds(rt, env, InitializeAccounts(rt, s, n), AccountState(rt.systemProgramId, None), data,
                       InitializeArgsOf(s, n, key, i), (NonceData(n.signer, n.slotHash), InitializationOf(s)),
                       Counted(FreshAccount(rt, s, AsRaw(key)), Counter(s.authData)));
  }

  lemma InitializationIsShort(s: Assertion)
    requires |Utf8(s.rpId)| <= 32
    ensures var i := SerializeInitializationData(InitializationOf(s)); i.Some? && |i.value| <= 70
  {
    var port := SerializeOptionU16(s.params.port);
    if s.params.port.Some? { Concat2([1], LE(s.params.port.value, 2)); }
    Concat2([s.params.typeAndFlags], port);
    Concat2([|Utf8(s.rpId)|], Utf8(s.rpId));
    Concat3([|Utf8(s.rpId)|] + Utf8(s.rpId), s.publicKey, SerializeParams(s.params));
  }

  lemma InitializeBuilds(s: Assertion, n: Recent, key: Option<SessionKey>)
    requires |Utf8(s.rpId)| <= 32 && (key.Some? ==> IsRaw(key.value))
    ensures BuildInitialize(s, n, key).Some?
  {
    InitializationIsShort(s);
    if key.Some? { SerializedIsRaw(key.value); }
  }

  lemma InitializeChallengeArises(rt: Runtime, n: Recent, key: Option<SessionKey>) returns (challenge: Hash)
    requires key.Some? ==> IsRaw(key.value)
    ensures ChallengeOf(rt, TsInitializePreimage(n.slotHash, n.signer, key)) == Some(challenge)
  {
    InitializeChallengeAgrees(n.slotHash, n.signer, key);
    challenge := rt.sha256(TsInitializePreimage(n.slotHash, n.signer, key).value);
  }

  /** The hypotheses of `InitializeAccepted` are met by an honest user, with every session key within the limit or
      none. */
  lemma HonestInitialization(rt: Runtime, rpId: string, publicKey: PublicKey, params: Params, r: nat, v: nat,
                             n: Recent, key: Option<SessionKey>, now: i64, invoke: (seq<Call>, Call) -> bool)
    returns (env: Environment, s: Assertion, challenge: Hash, data: bytes)
    requires |Utf8(rpId)| <= 32 && QUOTE_BYTE !in Utf8(rpId) && InRange(r) && InRange(v)
    requires key.Some? ==> IsRaw(key.value) && key.value.expiration <= LatestExpiration(now)
    ensures s.rpId == rpId && s.publicKey == publicKey && s.params == params && s.signature == EncodeSignature(r, v)
    ensures env.now == now && env.creates
    ensures BuildInitialize(s, n, key) == Some(data)
    ensures ChallengeOf(rt, TsInitializePreimage(n.slotHash, n.signer, key)) == Some(challenge)
    ensures PrecompileFirst(rt, env.transaction, s, challenge) && IsRecent(env, n) && Authenticates(rt, s, 0)
  {
    s := Assertion(rpId, publicKey, EncodeSignature(r, v), params, PlainAuthData(rt, rpId));
    InitializeBuilds(s, n, key);
    data := BuildInitialize(s, n, key).value;
    challenge := InitializeChallengeArises(rt, n, key);
    var transaction := PrecompileBuilds(rt, s, challenge, r, v);
    env := RecentArises(n, now, transaction, invoke);
    HonestAccount(rt, s);
  }
}

// From the chain back to the signature: a successful instruction was signed for, as itself, and only recently.
module Soundness {
  import opened Basics
  import opened Nonce
  import opened ClientData
  import opened Wire
  import opened Preimages
  import opened Challenges
  import opened Precompile
  import opened Passkey
  import opened Authorisation
  import opened Batch
  import opened Instructions

  /** The message the program reads from the transaction's one signature. */
  ghost predicate CarriesMessage(rt: Runtime, transaction: seq<TxInstruction>, message: bytes) {
    exists publicKey :: Carried(rt, transaction, publicKey, message)
  }

  /** A transaction carries at most one message, the one the program reads. */
  lemma CarriedIsRead(rt: Runtime, transaction: seq<TxInstruction>)
    ensures forall message :: CarriesMessage(rt, transaction, message) <==>
              FirstSignature(rt, transaction).Ok? && FirstSignature(rt, transaction).value.message == message
  {
    forall message ensures CarriesMessage(rt, transaction, message) <==>
              FirstSignature(rt, transaction).Ok? && FirstSignature(rt, transaction).value.message == message {
      if publicKey :| Carried(rt, transaction, publicKey, message) {
        CarriedExact(rt, transaction, publicKey, message);
      }
      if FirstSignature(rt, transaction).Ok? {
        CarriedExact(rt, transaction, FirstSignature(rt, transaction).value.publicKey, message);
      }
    }
  }

  /** The message is signed under the account's key and is an assertion of this action. */
  ghost predicate AssertsAction(rt: Runtime, transaction: seq<TxInstruction>, p: Passkey, params: Params,
                                action: Action, message: bytes) {
    Preimage(action).Some? && Signed(rt, transaction, p, message)
    && exists authData, rpId :: Asserts(rt, p, params, Challenge(rt, action), message, authData, rpId)
  }

  /** The precompile checks one signature, first in the transaction; its message is there, and it is for this
      action. */
  ghost predicate SignedFor(rt: Runtime, transaction: seq<TxInstruction>, p: Passkey, params: Params, action: Action) {
    OneSignature(rt, transaction) && (exists message :: CarriesMessage(rt, transaction, message))
    && forall message {:trigger CarriesMessage(rt, transaction, message)} ::
         CarriesMessage(rt, transaction, message) ==> AssertsAction(rt, transaction, p, params, action, message)
  }

  /** The nonce of an action: its account signed outside any call, and its hash is listed for a slot at most 149
      slots old. */
  ghost predicate NonceHolds(env: Environment, nonce: NonceData, signer: AccountInfo, height: u64) {
    signer.isSigner && signer.key == nonce.signerKey && env.stackHeight <= 1
    && SlotHash(height, nonce.slothash) in env.slots
    && env.slots[0].height - 149 <= height <= env.slots[0].height
  }

  lemma VerifiedIsSigned(rt: Runtime, transaction: seq<TxInstruction>, p: Passkey, params: Params, action: Action)
    requires Preimage(action).Some? && VerifyPayload(rt, transaction, p, params, Challenge(rt, action)).Ok?
    ensures SignedFor(rt, transaction, p, params, action)
    ensures var after := VerifyPayload(rt, transaction, p, params, Challenge(rt, action)).value;
            after == p.(counter := after.counter)
  {
    var message := FirstSignature(rt, transaction).value.message;
    var authData, rpId := AcceptedAsserts(rt, p, params, Challenge(rt, action), message);
    CarriedIsRead(rt, transaction);
    CarriedExact(rt, transaction, p.publicKey, message);
    assert CarriesMessage(rt, transaction, message);
  }

  lemma NonceIsRecent(env: Environment, slot: u16, signer: AccountInfo) returns (height: u64)
    requires Descending(env.slots) && ValidateNonce(env.slots, slot, env.stackHeight, signer).Ok?
    ensures NonceHolds(env, ValidateNonce(env.slots, slot, env.stackHeight, signer).value, signer, height)
    ensures height % 1000 == slot
  {
    var i := ValidatedInWindow(env.slots, slot, env.stackHeight, signer);
    OlderByIndex(env.slots, i);
    height := env.slots[i].height;
    assert env.slots[i] == SlotHash(height, ValidateNonce(env.slots, slot, env.stackHeight, signer).value.slothash);
  }

  /** What loading establishes for both passkey-signed instructions. */
  lemma LoadedIsRecent(rt: Runtime, env: Environment, infos: seq<AccountInfo>, a: AccountState, publicKey: bytes,
                       slot: u16)
    returns (height: u64)
    requires Descending(env.slots) && |infos| >= 4 && LoadSigned(rt, env, infos, a, publicKey, slot).Ok?
    ensures var (p, nonce) := LoadSigned(rt, env, infos, a, publicKey, slot).value;
            a == AccountState(rt.programId, Some(p)) && NonceHolds(env, nonce, infos[3], height)
            && height % 1000 == slot
            && infos[0].isWritable && infos[0].key == PasskeyAddress(rt, publicKey)
            && infos[1].key == rt.instructionsSysvarId && infos[2].key == rt.slotHashesId
  {
    height := NonceIsRecent(env, slot, infos[3]);
  }

  lemma ExecuteLoaded(rt: Runtime, env: Environment, infos: seq<AccountInfo>, a: AccountState, args: ExecuteArgs)
    returns (height: u64)
    requires Descending(env.slots) && 0 <= args.slothash < 0x1_0000 && LoadExecute(rt, env, infos, a, args).Ok?
    ensures var l := LoadExecute(rt, env, infos, a, args).value;
            a == AccountState(rt.programId, Some(l.passkey)) && NonceHolds(env, l.nonce, infos[3], height)
            && infos[0].isWritable && infos[1].key == rt.instructionsSysvarId && infos[2].key == rt.slotHashesId
            && height % 1000 == args.slothash
            && l.executionKey == ExecutionKey(rt, infos[0].key, l.passkey, l.scheme)
            && SchemeOf(args.signerExecutionScheme) == Ok(l.scheme)
  {
    var v := Whole(TakeVerificationData(args.extraVerificationData)).value;
    height := LoadedIsRecent(rt, env, infos, a, v.publicKey, args.slothash);
  }

  lemma {:induction false} ExecuteActed(rt: Runtime, env: Environment, infos: seq<AccountInfo>, a: AccountState,
                                        l: Loaded, v: seq<CompiledInstruction>)
    requires ActExecute(rt, env, infos, a, l, v).Ok?
    ensures var action, outcome := Execute(l.nonce, infos, v), ActExecute(rt, env, infos, a, l, v).value;
            SignedFor(rt, env.transaction, l.passkey, l.params, action)
            && RunBatch(ContextOf(rt, env, infos, l.executionKey, l.scheme), v, []) == Ok(outcome.calls)
  {
    var action := Execute(l.nonce, infos, v);
    assert Preimage(action) == ExecutePreimage(l.nonce, infos, v);
    VerifiedIsSigned(rt, env.transaction, l.passkey, l.params, action);
  }

  /** A successful execution was signed for with its own accounts and instructions, under a nonce of its own signer from
      a recent slot; its calls are the batch of those instructions, and none gains a privilege. */
  lemma ExecuteSound(rt: Runtime, env: Environment, infos: seq<AccountInfo>, a: AccountState, data: bytes)
    returns (args: ExecuteArgs, l: Loaded, height: u64)
    requires Descending(env.slots) && ProcessExecute(rt, env, infos, a, data).Ok?
    ensures Whole(TakeExecuteArgs(data)) == Some(args) && |infos| >= 4
    ensures LoadExecute(rt, env, infos, a, args) == Ok(l) && SchemeOf(args.signerExecutionScheme) == Ok(l.scheme)
    ensures a == AccountState(rt.programId, Some(l.passkey)) && infos[0].isWritable
    ensures infos[1].key == rt.instructionsSysvarId && infos[2].key == rt.slotHashesId
    ensures NonceHolds(env, l.nonce, infos[3], height) && height % 1000 == args.slothash
    ensures SignedFor(rt, env.transaction, l.passkey, l.params, Execute(l.nonce, infos[4..], args.instructions))
    ensures l.executionKey == ExecutionKey(rt, infos[0].key, l.passkey, l.scheme)
    ensures RunBatch(ContextOf(rt, env, infos[4..], l.executionKey, l.scheme), args.instructions, [])
            == Ok(ProcessExecute(rt, env, infos, a, data).value.calls)
    ensures forall i :: 0 <= i < |ProcessExecute(rt, env, infos, a, data).value.calls| ==>
              Conserves(infos[4..], l.executionKey, l.scheme, ProcessExecute(rt, env, infos, a, data).value.calls[i])
  {
    args := Whole(TakeExecuteArgs(data)).value;
    l := LoadExecute(rt, env, infos, a, args).value;
    height := ExecuteLoaded(rt, env, infos, a, args);
    ExecuteActed(rt, env, infos[4..], a, l, args.instructions);
    var calls := ProcessExecute(rt, env, infos, a, data).value.calls;
    PrivilegeConservation(ContextOf(rt, env, infos[4..], l.executionKey, l.scheme), l.scheme, args.instructions, calls);
  }

  lemma RefreshActed(rt: Runtime, env: Environment, p: Passkey, nonce: NonceData, params: Params, key: RawSessionKey)
    requires ActRefresh(rt, env, p, nonce, params, key).Ok?
    ensures SignedFor(rt, env.transaction, p, params, Refresh(nonce, key))
  {
    var action := Refresh(nonce, key);
    assert Preimage(action) == Some(RefreshPreimage(nonce, key));
    VerifiedIsSigned(rt, env.transaction, p, params, action);
  }

  lemma RefreshLoaded(rt: Runtime, env: Environment, infos: seq<AccountInfo>, a: AccountState, args: RefreshArgs)
    returns (height: u64)
    requires Descending(env.slots) && 0 <= args.slothash < 0x1_0000 && LoadRefresh(rt, env, infos, a, args).Ok?
    ensures var (p, nonce, _) := LoadRefresh(rt, env, infos, a, args).value;
            a == AccountState(rt.programId, Some(p)) && NonceHolds(env, nonce, infos[3], height) && infos[0].isWritable
            && infos[1].key == rt.instructionsSysvarId && infos[2].key == rt.slotHashesId
            && height % 1000 == args.slothash
  {
    var v := Whole(TakeVerificationData(args.verificationData)).value;
    height := LoadedIsRecent(rt, env, infos, a, v.publicKey, args.slothash);
  }

  /** A successful refresh was signed for with the key and duration of its own arguments, under a recent nonce. */
  lemma RefreshSound(rt: Runtime, env: Environment, infos: seq<AccountInfo>, a: AccountState, data: bytes)
    returns (args: RefreshArgs, p: Passkey, nonce: NonceData, params: Params, height: u64)
    requires Descending(env.slots) && ProcessRefresh(rt, env, infos, a, data).Ok?
    ensures Whole(TakeRefreshArgs(data)) == Some(args) && IsRaw(args.sessionKey) && |infos| >= 4
    ensures LoadRefresh(rt, env, infos, a, args) == Ok((p, nonce, params))
    ensures a == AccountState(rt.programId, Some(p)) && infos[0].isWritable
    ensures infos[1].key == rt.instructionsSysvarId && infos[2].key == rt.slotHashesId
    ensures NonceHolds(env, nonce, infos[3], height) && height % 1000 == args.slothash
    ensures SignedFor(rt, env.transaction, p, params, Refresh(nonce, args.sessionKey))
  {
    args := Whole(TakeRefreshArgs(data)).value;
    var l := LoadRefresh(rt, env, infos, a, args).value;
    p, nonce, params := l.0, l.1, l.2;
    height := RefreshLoaded(rt, env, infos, a, args);
    RefreshActed(rt, env, p, nonce, params, args.sessionKey);
  }

  lemma InitializeLoaded(rt: Runtime, env: Environment, infos: seq<AccountInfo>, a: AccountState, args: InitializeArgs)
    returns (height: u64)
    requires Descending(env.slots) && 0 <= args.slothash < 0x1_0000 && LoadInitialize(rt, env, infos, a, args).Ok?
    ensures var (nonce, i) := LoadInitialize(rt, env, infos, a, args).value;
            |infos| >= 5 && NonceHolds(env, nonce, infos[1], height) && height % 1000 == args.slothash
            && infos[0].key == PasskeyAddress(rt, i.publicKey) && QUOTE_BYTE !in i.rpId
  {
    height := NonceIsRecent(env, args.slothash, infos[1]);
  }

  lemma InitializeActed(rt: Runtime, env: Environment, nonce: NonceData, i: InitializationData,
                        key: Option<RawSessionKey>)
    returns (fields: Passkey)
    requires |i.rpId| <= 32 && |i.publicKey| == 33 && ActInitialize(rt, env, nonce, i, key).Ok?
    ensures InitializeAccount(BLANK, NewRelyingParty(rt, i.rpId), i.publicKey, key, env.now) == Ok(fields)
    ensures fields.publicKey == i.publicKey && fields.rp == NewRelyingParty(rt, i.rpId) && fields.counter == 0
    ensures SignedFor(rt, env.transaction, fields, i.params, Initialize(nonce, key))
    ensures var after := ActInitialize(rt, env, nonce, i, key).value; after == fields.(counter := after.counter)
  {
    var action := Initialize(nonce, key);
    fields := InitializeAccount(BLANK, NewRelyingParty(rt, i.rpId), i.publicKey, key, env.now).value;
    assert Preimage(action) == Some(InitializePreimage(nonce, key));
    VerifiedIsSigned(rt, env.transaction, fields, i.params, action);
  }

  /** A successful initialisation was signed for by the very key and relying party it stores, at the address of that
      key, under a recent nonce of the payer. */
  lemma InitializeSound(rt: Runtime, env: Environment, infos: seq<AccountInfo>, a: AccountState, data: bytes)
    returns (args: InitializeArgs, i: InitializationData, nonce: NonceData, fields: Passkey, height: u64)
    requires Descending(env.slots) && ProcessInitialize(rt, env, infos, a, data).Ok?
    ensures Whole(TakeInitializeArgs(data)) == Some(args) && (args.sessionKey.Some? ==> IsRaw(args.sessionKey.value))
    ensures LoadInitialize(rt, env, infos, a, args) == Ok((nonce, i))
    ensures |infos| >= 5 && NonceHolds(env, nonce, infos[1], height) && height % 1000 == args.slothash
    ensures |i.rpId| <= 32 && QUOTE_BYTE !in i.rpId && infos[0].key == PasskeyAddress(rt, i.publicKey)
    ensures InitializeAccount(BLANK, NewRelyingParty(rt, i.rpId), i.publicKey, AsRaw(args.sessionKey), env.now)
            == Ok(fields)
    ensures fields.publicKey == i.publicKey && fields.rp == NewRelyingParty(rt, i.rpId) && fields.counter == 0
    ensures SignedFor(rt, env.transaction, fields, i.params, Initialize(nonce, AsRaw(args.sessionKey)))
    ensures var after := ProcessInitialize(rt, env, infos, a, data).value.account.data;
            after.Some? && after.value == fields.(counter := after.value.counter)
  {
    args := Whole(TakeInitializeArgs(data)).value;
    var l := LoadInitialize(rt, env, infos, a, args).value;
    nonce, i := l.0, l.1;
    height := InitializeLoaded(rt, env, infos, a, args);
    fields := InitializeActed(rt, env, nonce, i, AsRaw(args.sessionKey));
  }

  // ----- the same message twice

  /** Across two slot lists, a hash names one slot. */
  ghost predicate HashesNameSlots(x: seq<SlotHash>, y: seq<SlotHash>) {
    forall e, f :: e in x && f in y && e.hash == f.hash ==> e.height == f.height
  }

  lemma HeightOfHash(env: Environment, env': Environment, nonce: NonceData, signer: AccountInfo, signer': AccountInfo,
                     h: u64, h': u64)
    requires HashesNameSlots(env.slots, env'.slots)
    requires NonceHolds(env, nonce, signer, h) && NonceHolds(env', nonce, signer', h')
    ensures Near(env.slots, env'.slots)
  {
    var e, f := SlotHash(h, nonce.slothash), SlotHash(h', nonce.slothash);
    assert e in env.slots && f in env'.slots && e.hash == f.hash;
  }

  /** The newest slots are at most 149 apart. */
  ghost predicate Near(x: seq<SlotHash>, y: seq<SlotHash>) {
    x != [] && y != [] && -149 <= x[0].height - y[0].height <= 149
  }

  /** The two transactions carry one message. */
  ghost predicate SameMessage(rt: Runtime, transaction: seq<TxInstruction>, transaction': seq<TxInstruction>) {
    exists message :: CarriesMessage(rt, transaction, message) && CarriesMessage(rt, transaction', message)
  }

  lemma AssertedTwice(rt: Runtime, transaction: seq<TxInstruction>, transaction': seq<TxInstruction>, p: Passkey,
                      p': Passkey, params: Params, params': Params, a: Action, b: Action, message: bytes)
    requires Fits(a) && Fits(b) && p.rp == p'.rp
    requires AssertsAction(rt, transaction, p, params, a, message)
             && AssertsAction(rt, transaction', p', params', b, message)
    ensures a == b || Collides(rt, Preimage(a).value, Preimage(b).value)
            || Collides(rt, Document(p, params, Challenge(rt, a)), Document(p', params', Challenge(rt, b)))
  {
    var authData, rpId :| Asserts(rt, p, params, Challenge(rt, a), message, authData, rpId);
    var authData', rpId' :| Asserts(rt, p', params', Challenge(rt, b), message, authData', rpId');
    AssertionAccepted(rt, p, params, Challenge(rt, a), message, authData, rpId);
    AssertionAccepted(rt, p', params', Challenge(rt, b), message, authData', rpId');
    OneMessageOneAction(rt, p, p', params, params', a, b, message);
  }

  lemma SignedTwice(rt: Runtime, transaction: seq<TxInstruction>, transaction': seq<TxInstruction>, p: Passkey,
                    p': Passkey, params: Params, params': Params, a: Action, b: Action)
    requires Fits(a) && Fits(b) && p.rp == p'.rp && SameMessage(rt, transaction, transaction')
    requires SignedFor(rt, transaction, p, params, a) && SignedFor(rt, transaction', p', params', b)
    ensures a == b || Collides(rt, Preimage(a).value, Preimage(b).value)
            || Collides(rt, Document(p, params, Challenge(rt, a)), Document(p', params', Challenge(rt, b)))
  {
    var message :| CarriesMessage(rt, transaction, message) && CarriesMessage(rt, transaction', message);
    AssertedTwice(rt, transaction, transaction', p, p', params, params', a, b, message);
  }

  /** One signed message, accepted twice under one relying party, is the same action both times, with newest slots
      at most 149 apart; or two byte strings collide under the hash. */
  lemma ReplayOnlyInWindow(rt: Runtime, env: Environment, env': Environment, p: Passkey, p': Passkey, params: Params,
                           params': Params, a: Action, b: Action, signer: AccountInfo, signer': AccountInfo,
                           h: u64, h': u64)
    requires Fits(a) && Fits(b) && p.rp == p'.rp && HashesNameSlots(env.slots, env'.slots)
    requires SameMessage(rt, env.transaction, env'.transaction)
    requires SignedFor(rt, env.transaction, p, params, a) && SignedFor(rt, env'.transaction, p', params', b)
    requires NonceHolds(env, a.nonce, signer, h) && NonceHolds(env', b.nonce, signer', h')
    ensures (a == b && Near(env.slots, env'.slots))
            || Collides(rt, Preimage(a).value, Preimage(b).value)
            || Collides(rt, Document(p, params, Challenge(rt, a)), Document(p', params', Challenge(rt, b)))
  {
    SignedTwice(rt, env.transaction, env'.transaction, p, p', params, params', a, b);
    if a == b {
      HeightOfHash(env, env', a.nonce, signer, signer', h, h');
    }
  }

  /** What a signature is for can be serialised. */
  lemma SignedForSerialises(rt: Runtime, transaction: seq<TxInstruction>, p: Passkey, params: Params, action: Action)
    requires SignedFor(rt, transaction, p, params, action)
    ensures Preimage(action).Some?
  {
    var message :| CarriesMessage(rt, transaction, message);
  }
}

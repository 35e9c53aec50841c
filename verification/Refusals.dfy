// Which error each refusal is: the checks in order, over the bytes and accounts given.
module Refusals {
  import opened Basics
  import opened Text
  import opened Nonce
  import opened ClientData
  import opened Wire
  import opened WireExact
  import opened Preimages
  import opened Precompile
  import opened Passkey
  import opened Authorisation
  import opened Instructions
  import opened Effects

  // ----- the nonce

  /** How far the newest slot is ahead of the one named. */
  function Age(list: seq<SlotHash>, value: u16): int
    requires list != []
  {
    (list[0].height - value) % 1000
  }

  lemma DifferenceIsAge(newest: u64, value: u16)
    requires value < 1000
    ensures IndexDifference(Truncate(newest), value) == Ok((newest - value) % 1000)
  {
    DifferenceResolves(newest, value, newest - (newest - value) % 1000);
  }

  lemma NonceRefuses(list: seq<SlotHash>, value: u16, stackHeight: nat, signer: AccountInfo)
    ensures var r := ValidateNonce(list, value, stackHeight, signer);
            && (value >= 1000 ==> r == Err(InvalidTruncatedSlot))
            && (value < 1000 && stackHeight > 1 ==> r == Err(CPINotAllowed))
            && (value < 1000 && stackHeight <= 1 && !signer.isSigner ==> r == Err(MissingNonceSignature))
            && (value < 1000 && stackHeight <= 1 && signer.isSigner && list == [] ==> r == Err(InvalidSlothashIndex))
    ensures value < 1000 && stackHeight <= 1 && signer.isSigner && list != [] ==>
              var r := ValidateNonce(list, value, stackHeight, signer);
              && (Age(list, value) >= 150 ==> r == Err(ExpiredSlothash))
              && (Age(list, value) < 150 && list[0].height < Age(list, value) ==> r == Err(InvalidTruncatedSlot))
  {
    if value < 1000 && list != [] { DifferenceIsAge(list[0].height, value); }
  }

  /** A slot in the window that is not listed. */
  lemma SkippedSlotRefused(list: seq<SlotHash>, value: u16, stackHeight: nat, signer: AccountInfo)
    requires Descending(list) && list != [] && value < 1000 && stackHeight <= 1 && signer.isSigner
    requires Age(list, value) < 150 && Age(list, value) <= list[0].height
    requires forall i :: 0 <= i < |list| ==> list[i].height != list[0].height - Age(list, value)
    ensures ValidateNonce(list, value, stackHeight, signer) == Err(InvalidSlothashIndex)
  {
    DifferenceIsAge(list[0].height, value);
    FindIsFullScan(list, Age(list, value));
    FullScanFinds(list, list[0].height - Age(list, value));
  }

  // ----- loading

  lemma LoadDataRefuses(rt: Runtime, account: AccountState)
    ensures account.data.None? || account.owner != rt.programId ==> LoadData(rt, account) == Err(Panicked)
    ensures account.data.Some? && account.owner == rt.programId
            && (account.data.value.version != 1 || account.data.value.scheme != 0) ==>
              LoadData(rt, account) == Err(ErrorDeserializingHeader)
  {
  }

  /** After the account's data: not writable, another address, other sysvars, and then the nonce's own error. */
  lemma LoadSignedRefuses(rt: Runtime, env: Environment, infos: seq<AccountInfo>, account: AccountState,
                          publicKey: bytes, value: u16, p: Passkey)
    requires |infos| >= 4 && Held(rt, account, p)
    ensures var r, address := LoadSigned(rt, env, infos, account, publicKey, value),
                              rt.findProgramAddress([PASSKEY_SEED, rt.sha256(publicKey)]);
            && (!infos[0].isWritable ==> r == Err(P256AccountNotWritable))
            && (infos[0].isWritable && infos[0].key != address ==> r == Err(InvalidAccountOwner))
            && (infos[0].isWritable && infos[0].key == address
                && (infos[1].key != rt.instructionsSysvarId || infos[2].key != rt.slotHashesId) ==>
                  r == Err(UnsupportedSysvar))
    ensures AccountsFit(rt, infos, publicKey)
            && ValidateNonce(env.slots, value, env.stackHeight, infos[3]).Err? ==>
              LoadSigned(rt, env, infos, account, publicKey, value)
              == Err(ValidateNonce(env.slots, value, env.stackHeight, infos[3]).error)
  {
    PasskeyAddressIs(rt, publicKey);
    LoadDataMeans(rt, account, p);
  }

  // ----- verification

  lemma VerifyReads(rt: Runtime, transaction: seq<TxInstruction>, p: Passkey, params: Params, payload: bytes,
                    message: bytes)
    requires Carried(rt, transaction, p.publicKey, message)
    ensures VerifyPayload(rt, transaction, p, params, payload) == CheckMessage(rt, p, params, payload, message)
  {
    CarriedExact(rt, transaction, p.publicKey, message);
  }

  lemma OtherKeyRefused(rt: Runtime, transaction: seq<TxInstruction>, p: Passkey, params: Params, payload: bytes,
                        publicKey: bytes, message: bytes)
    requires Carried(rt, transaction, publicKey, message) && publicKey != p.publicKey
    ensures VerifyPayload(rt, transaction, p, params, payload) == Err(P256PublicKeyMismatch)
  {
    CarriedExact(rt, transaction, publicKey, message);
  }

  /** A message too short for a hash, a flag byte and a hash after it. */
  lemma ShortMessageRefused(rt: Runtime, transaction: seq<TxInstruction>, p: Passkey, params: Params,
                            payload: bytes, message: bytes)
    requires Carried(rt, transaction, p.publicKey, message) && |message| <= 64
    ensures VerifyPayload(rt, transaction, p, params, payload) == Err(Panicked)
  {
    VerifyReads(rt, transaction, p, params, payload, message);
  }

  /** Authenticator data followed by a hash d: an absent user, another relying party, another document, and a counter
      that does not advance. */
  lemma {:induction false} AssertionRefused(rt: Runtime, transaction: seq<TxInstruction>, p: Passkey, params: Params,
                                            payload: bytes, h: Hash, flags: byte, v: u32, extra: bytes, d: Hash,
                                            rpId: string)
    requires Carried(rt, transaction, p.publicKey, AuthData(h, flags, v, extra) + d)
    requires p.rp.length <= 32 && p.rp.buffer[..p.rp.length] == Utf8(rpId)
    ensures var r, document := VerifyPayload(rt, transaction, p, params, payload),
                               Utf8(Template(MeaningOf(params), rpId, payload));
            && (flags % 2 == 0 ==> r == Err(P256UserNotPresent))
            && (flags % 2 == 1 && h != p.rp.hash ==> r == Err(P256RelyingPartyMismatch))
            && (flags % 2 == 1 && h == p.rp.hash && d != rt.sha256(document) ==> r == Err(P256ClientDataHashMismatch))
            && (flags % 2 == 1 && h == p.rp.hash && d == rt.sha256(document) && 0 < v <= p.counter ==>
                  r == Err(Panicked))
  {
    var authData := AuthData(h, flags, v, extra);
    VerifyReads(rt, transaction, p, params, payload, authData + d);
    MessageSplits(authData, d);
    AuthDataParts(h, flags, v, extra);
    CounterReads(h, flags, v, extra);
    Utf8Decodes(rpId);
  }

  // ----- the four instructions

  /** Execution: data that encode nothing, another signature scheme, too few accounts, verification data that encode
      nothing, then what loading the account refuses, and an unknown execution scheme. */
  lemma ExecuteRefuses(rt: Runtime, env: Environment, infos: seq<AccountInfo>, account: AccountState, data: bytes)
    ensures var r := ProcessExecute(rt, env, infos, account, data);
            && ((forall args :: SerializeExecuteArgs(args) != Some(data)) ==> r == Err(InvalidExecutionArgs))
            && forall args :: SerializeExecuteArgs(args) == Some(data) ==>
                 (args.signatureScheme != 0 ==> r == Err(InvalidSignatureScheme))
                 && (args.signatureScheme == 0 && |infos| < 4 ==> r == Err(NotEnoughAccountKeys))
                 && (args.signatureScheme == 0 && |infos| >= 4
                     && (forall v :: SerializeVerificationData(v) != Some(args.extraVerificationData)) ==>
                       r == Err(InvalidExtraVerificationDataArgs))
  {
    var parsed := Whole(TakeExecuteArgs(data));
    if parsed.Some? {
      ExecuteRoundTrip(parsed.value, data);
      var v := Whole(TakeVerificationData(parsed.value.extraVerificationData));
      if v.Some? { VerificationDataRoundTrip(v.value, parsed.value.extraVerificationData); }
    }
    forall args | SerializeExecuteArgs(args) == Some(data) ensures parsed == Some(args) {
      ExecuteRoundTrip(args, data);
    }
  }

  lemma ExecuteRefusesLoaded(rt: Runtime, env: Environment, infos: seq<AccountInfo>, account: AccountState,
                             data: bytes, args: ExecuteArgs, v: VerificationData)
    requires SerializeExecuteArgs(args) == Some(data) && args.signatureScheme == 0 && |infos| >= 4
    requires SerializeVerificationData(v) == Some(args.extraVerificationData)
    ensures 0 <= args.slothash < 0x1_0000
    ensures var r, loaded := ProcessExecute(rt, env, infos, account, data),
                             LoadSigned(rt, env, infos, account, v.publicKey, args.slothash);
            && (loaded.Err? ==> r == Err(loaded.error))
            && (loaded.Ok? && args.signerExecutionScheme > 1 ==> r == Err(InvalidSignerExecutionScheme))
  {
    ExecuteRoundTrip(args, data);
    VerificationDataRoundTrip(v, args.extraVerificationData);
    SchemeMeans(rt, infos[0].key, BLANK, args.signerExecutionScheme);
  }

  /** Sessioned execution: after its data, the account, the session key and the execution scheme. */
  lemma SessionedRefuses(rt: Runtime, env: Environment, infos: seq<AccountInfo>, account: AccountState, data: bytes)
    ensures var r := ProcessSessioned(rt, env, infos, account, data);
            && ((forall args :: SerializeSessionedArgs(args) != Some(data)) ==> r == Err(InvalidExecutionArgs))
            && forall args :: SerializeSessionedArgs(args) == Some(data) ==>
                 (args.signatureScheme != 0 ==> r == Err(InvalidSignatureScheme))
                 && (args.signatureScheme == 0 && |infos| < 2 ==> r == Err(NotEnoughAccountKeys))
                 && (args.signatureScheme == 0 && |infos| >= 2 && LoadData(rt, account).Err? ==>
                       r == Err(LoadData(rt, account).error))
  {
    var parsed := Whole(TakeSessionedArgs(data));
    if parsed.Some? { SessionedRoundTrip(parsed.value, data); }
    forall args | SerializeSessionedArgs(args) == Some(data) ensures parsed == Some(args) {
      SessionedRoundTrip(args, data);
    }
  }

  lemma SessionedRefusesKey(rt: Runtime, env: Environment, infos: seq<AccountInfo>, account: AccountState,
                            data: bytes, args: SessionedArgs, p: Passkey)
    requires SerializeSessionedArgs(args) == Some(data) && args.signatureScheme == 0 && |infos| >= 2
    requires Held(rt, account, p)
    ensures var r := ProcessSessioned(rt, env, infos, account, data);
            && (!infos[1].isSigner ==> r == Err(SessionSignerNotASigner))
            && (infos[1].isSigner && infos[1].key != p.sessionKey.key ==> r == Err(InvalidSessionKey))
            && (infos[1].isSigner && infos[1].key == p.sessionKey.key && p.sessionKey.expiration < Clock(env.now) ==>
                  r == Err(SessionKeyExpired))
            && (infos[1].isSigner && infos[1].key == p.sessionKey.key && Clock(env.now) <= p.sessionKey.expiration
                && args.signerExecutionScheme > 1 ==>
                  r == Err(InvalidSignerExecutionScheme))
  {
    SessionedRoundTrip(args, data);
    LoadDataMeans(rt, account, p);
    SessionCheckMeans(p, infos[1], env.now);
    SchemeMeans(rt, infos[0].key, p, args.signerExecutionScheme);
  }

  /** Refresh: the same order as execution, under its own parse error. */
  lemma RefreshRefuses(rt: Runtime, env: Environment, infos: seq<AccountInfo>, account: AccountState, data: bytes)
    ensures var r := ProcessRefresh(rt, env, infos, account, data);
            && ((forall args :: SerializeRefreshArgs(args) != Some(data)) ==> r == Err(InvalidArgument))
            && forall args :: SerializeRefreshArgs(args) == Some(data) ==>
                 (args.signatureScheme != 0 ==> r == Err(InvalidSignatureScheme))
                 && (args.signatureScheme == 0 && |infos| < 4 ==> r == Err(NotEnoughAccountKeys))
                 && (args.signatureScheme == 0 && |infos| >= 4
                     && (forall v :: SerializeVerificationData(v) != Some(args.verificationData)) ==>
                       r == Err(InvalidExtraVerificationDataArgs))
  {
    var parsed := Whole(TakeRefreshArgs(data));
    if parsed.Some? {
      RefreshRoundTrip(parsed.value, data);
      var v := Whole(TakeVerificationData(parsed.value.verificationData));
      if v.Some? { VerificationDataRoundTrip(v.value, parsed.value.verificationData); }
    }
    forall args | SerializeRefreshArgs(args) == Some(data) ensures parsed == Some(args) {
      RefreshRoundTrip(args, data);
    }
  }

  lemma RefreshRefusesLoaded(rt: Runtime, env: Environment, infos: seq<AccountInfo>, account: AccountState,
                             data: bytes, args: RefreshArgs, v: VerificationData)
    requires SerializeRefreshArgs(args) == Some(data) && args.signatureScheme == 0 && |infos| >= 4
    requires SerializeVerificationData(v) == Some(args.verificationData)
    ensures 0 <= args.slothash < 0x1_0000
    ensures var loaded := LoadSigned(rt, env, infos, account, v.publicKey, args.slothash);
            loaded.Err? ==> ProcessRefresh(rt, env, infos, account, data) == Err(loaded.error)
  {
    RefreshRoundTrip(args, data);
    VerificationDataRoundTrip(v, args.verificationData);
  }

  lemma StoringRefused(p: Passkey, key: RawSessionKey, now: i64)
    requires (now + key.expiration) % 0x1_0000_0000_0000_0000 > (now + 7776000) % 0x1_0000_0000_0000_0000
    ensures UpdateSessionKey(p, SessionKey(key.key, RefreshedExpiration(now, key.expiration)), now)
            == Err(InvalidSessionKeyExpiration)
  {
    LimitMeans(now);
    RefreshIsModular(now, key.expiration);
  }

  /** A duration whose sum passes the limit is refused, whoever signed it. */
  lemma LongDurationRefused(rt: Runtime, env: Environment, p: Passkey, nonce: NonceData, params: Params,
                            key: RawSessionKey, after: Passkey)
    requires LetsThrough(rt, env.transaction, p, params, rt.sha256(RefreshPreimage(nonce, key)), after)
    requires (env.now + key.expiration) % 0x1_0000_0000_0000_0000 > (env.now + 7776000) % 0x1_0000_0000_0000_0000
    ensures ActRefresh(rt, env, p, nonce, params, key) == Err(InvalidSessionKeyExpiration)
  {
    VerifyMeans(rt, env.transaction, p, params, rt.sha256(RefreshPreimage(nonce, key)), after);
    StoringRefused(after, key, env.now);
  }

  /** Initialisation: after its data, an account that is taken, and too few accounts. */
  lemma InitializeRefuses(rt: Runtime, env: Environment, infos: seq<AccountInfo>, account: AccountState, data: bytes)
    ensures var r := ProcessInitialize(rt, env, infos, account, data);
            && ((forall args :: SerializeInitializeArgs(args) != Some(data)) ==> r == Err(InvalidArgument))
            && forall args :: SerializeInitializeArgs(args) == Some(data) ==>
                 (args.signatureScheme != 0 ==> r == Err(InvalidSignatureScheme))
                 && (args.signatureScheme == 0 && |infos| < 5 ==> r == Err(NotEnoughAccountKeys))
                 && (args.signatureScheme == 0 && |infos| >= 5 && account.owner != rt.systemProgramId ==>
                       r == Err(InvalidAccountOwner))
                 && (args.signatureScheme == 0 && |infos| >= 5 && account.owner == rt.systemProgramId
                     && account.data.Some? ==>
                       r == Err(InvalidAccountData))
  {
    var parsed := Whole(TakeInitializeArgs(data));
    if parsed.Some? { InitializeRoundTrip(parsed.value, data); }
    forall args | SerializeInitializeArgs(args) == Some(data) ensures parsed == Some(args) {
      InitializeRoundTrip(args, data);
    }
  }

  /** On a free account: other sysvars, another system program, the nonce's own error, data that encode nothing, a
      relying party id that is too long or has a quote, and another address, in this order. */
  lemma InitializeRefusesLoaded(rt: Runtime, env: Environment, infos: seq<AccountInfo>, args: InitializeArgs)
    requires |infos| >= 5 && 0 <= args.slothash < 0x1_0000
    ensures var r, free := LoadInitialize(rt, env, infos, AccountState(rt.systemProgramId, None), args),
                           infos[2].key == rt.instructionsSysvarId && infos[3].key == rt.slotHashesId;
            var nonce := ValidateNonce(env.slots, args.slothash, env.stackHeight, infos[1]);
            && (!free ==> r == Err(UnsupportedSysvar))
            && (free && infos[4].key != rt.systemProgramId ==> r == Err(Panicked))
            && (free && infos[4].key == rt.systemProgramId && nonce.Err? ==> r == Err(nonce.error))
            && (free && infos[4].key == rt.systemProgramId && nonce.Ok?
                && (forall i :: SerializeInitializationData(i) != Some(args.initializationData)) ==>
                  r == Err(InvalidArgument))
            && forall i :: free && infos[4].key == rt.systemProgramId && nonce.Ok?
                           && SerializeInitializationData(i) == Some(args.initializationData) ==>
                 (|i.rpId| > 32 ==> r == Err(P256RelyingPartTooLong))
                 && (|i.rpId| <= 32 && 34 in i.rpId ==> r == Err(P256RelyingPartIncludeQuotes))
                 && (|i.rpId| <= 32 && 34 !in i.rpId
                     && infos[0].key != rt.findProgramAddress([PASSKEY_SEED, rt.sha256(i.publicKey)]) ==>
                       r == Err(InvalidAccountOwner))
  {
    var parsed := Whole(TakeInitializationData(args.initializationData));
    if parsed.Some? {
      InitializationDataRoundTrip(parsed.value, args.initializationData);
      PasskeyAddressIs(rt, parsed.value.publicKey);
    }
    forall i | SerializeInitializationData(i) == Some(args.initializationData) ensures parsed == Some(i) {
      InitializationDataRoundTrip(i, args.initializationData);
    }
  }
}

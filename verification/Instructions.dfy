// The four instructions over a passkey account: loading and checking, then acting.
module Instructions {
  import opened Basics
  import opened Nonce
  import opened ClientData
  import opened Wire
  import opened Preimages
  import opened Challenges
  import opened Precompile
  import opened Passkey
  import opened Batch

  /** What an instruction sees of the runtime: the slot hashes and the clock, its call depth, the running transaction,
      whether the system program created the account it was asked for, and its verdict on each call. */
  datatype Environment = Environment(slots: seq<SlotHash>, now: i64, stackHeight: nat, transaction: seq<TxInstruction>,
                                     creates: bool, invoke: (seq<Call>, Call) -> bool)

  /** A successful instruction: the account it leaves and the calls it made. */
  datatype Outcome = Outcome(account: AccountState, calls: seq<Call>)

  // ----- shared checks

  function CheckSysvars(rt: Runtime, instructions: AccountInfo, slotHashes: AccountInfo): Result<Unit> {
    if instructions.key != rt.instructionsSysvarId || slotHashes.key != rt.slotHashesId then Err(UnsupportedSysvar)
    else Ok(Unit)
  }

  function CheckScheme(scheme: byte): Result<Unit> {
    if scheme != P256_WEBAUTHN then Err(InvalidSignatureScheme) else Ok(Unit)
  }

  function SchemeOf(b: byte): Result<ExecutionScheme> {
    if b == 0 then Ok(ExecutionAccount) else if b == 1 then Ok(ExternalAccountItself)
    else Err(InvalidSignerExecutionScheme)
  }

  /** The address that signs the calls. */
  function ExecutionKey(rt: Runtime, account: Key, p: Passkey, scheme: ExecutionScheme): Key {
    match scheme
    case ExecutionAccount => rt.findProgramAddress([account, Ascii("execution_account")])
    case ExternalAccountItself => PasskeyAddress(rt, p.publicKey)
  }

  function ContextOf(rt: Runtime, env: Environment, infos: seq<AccountInfo>, executionKey: Key,
                     scheme: ExecutionScheme): (c: Context)
    ensures ValidContext(c)
  {
    Context(infos, Metas(infos, executionKey, scheme), executionKey, rt.programId, env.invoke)
  }

  function LoadData(rt: Runtime, account: AccountState): Result<Passkey> {
    var owned :- Load(rt, account);
    DataOf(account)
  }

  /** The account, its address and the nonce, as both passkey-signed instructions check them. */
  function LoadSigned(rt: Runtime, env: Environment, infos: seq<AccountInfo>, account: AccountState, publicKey: bytes,
                      slot: u16): Result<(Passkey, NonceData)>
    requires |infos| >= 4
  {
    var p :- LoadData(rt, account);
    var address :- CheckAccount(rt, infos[0], publicKey);
    var sysvars :- CheckSysvars(rt, infos[1], infos[2]);
    var nonce :- ValidateNonce(env.slots, slot, env.stackHeight, infos[3]);
    Ok((p, nonce))
  }

  // ----- execute

  datatype Loaded = Loaded(passkey: Passkey, nonce: NonceData, params: Params, executionKey: Key,
                           scheme: ExecutionScheme)

  function LoadExecute(rt: Runtime, env: Environment, infos: seq<AccountInfo>, account: AccountState,
                       args: ExecuteArgs): Result<Loaded>
    requires 0 <= args.slothash < 0x1_0000
  {
    if |infos| < 4 then Err(NotEnoughAccountKeys)
    else
      match Whole(TakeVerificationData(args.extraVerificationData))
      case None => Err(InvalidExtraVerificationDataArgs)
      case Some(v) =>
        var signed :- LoadSigned(rt, env, infos, account, v.publicKey, args.slothash);
        var scheme :- SchemeOf(args.signerExecutionScheme);
        Ok(Loaded(signed.0, signed.1, v.params, ExecutionKey(rt, infos[0].key, signed.0, scheme), scheme))
  }

  /** Verification and the batch, once loaded. */
  function ActExecute(rt: Runtime, env: Environment, infos: seq<AccountInfo>, account: AccountState, loaded: Loaded,
                      instructions: seq<CompiledInstruction>): Result<Outcome>
  {
    match ExecutePreimage(loaded.nonce, infos, instructions)
    case None => Err(Panicked)
    case Some(payload) =>
      var p :- VerifyPayload(rt, env.transaction, loaded.passkey, loaded.params, rt.sha256(payload));
      var calls :- RunBatch(ContextOf(rt, env, infos, loaded.executionKey, loaded.scheme), instructions, []);
      Ok(Outcome(account.(data := Some(p)), calls))
  }

  function ProcessExecute(rt: Runtime, env: Environment, infos: seq<AccountInfo>, account: AccountState,
                            data: bytes): Result<Outcome> {
    match Whole(TakeExecuteArgs(data))
    case None => Err(InvalidExecutionArgs)
    case Some(args) =>
      var checked :- CheckScheme(args.signatureScheme);
      var loaded :- LoadExecute(rt, env, infos, account, args);
      ActExecute(rt, env, infos[4..], account, loaded, args.instructions)
  }

  // ----- sessioned execute

  function ActSessioned(rt: Runtime, env: Environment, infos: seq<AccountInfo>, account: AccountState, p: Passkey,
                        args: SessionedArgs): Result<Outcome>
    requires |infos| >= 2
  {
    var valid :- IsValidSessionKey(p, infos[1], env.now);
    var scheme :- SchemeOf(args.signerExecutionScheme);
    var calls :- RunBatch(ContextOf(rt, env, infos[2..], ExecutionKey(rt, infos[0].key, p, scheme), scheme),
                          args.instructions, []);
    Ok(Outcome(account, calls))
  }

  function ProcessSessioned(rt: Runtime, env: Environment, infos: seq<AccountInfo>, account: AccountState,
                            data: bytes): Result<Outcome> {
    match Whole(TakeSessionedArgs(data))
    case None => Err(InvalidExecutionArgs)
    case Some(args) =>
      var checked :- CheckScheme(args.signatureScheme);
      if |infos| < 2 then Err(NotEnoughAccountKeys)
      else
        var p :- LoadData(rt, account);
        ActSessioned(rt, env, infos, account, p, args)
  }

  // ----- refresh

  function ActRefresh(rt: Runtime, env: Environment, p: Passkey, nonce: NonceData, params: Params,
                      key: RawSessionKey): Result<Passkey> {
    var verified :- VerifyPayload(rt, env.transaction, p, params, rt.sha256(RefreshPreimage(nonce, key)));
    UpdateSessionKey(verified, SessionKey(key.key, RefreshedExpiration(env.now, key.expiration)), env.now)
  }

  function LoadRefresh(rt: Runtime, env: Environment, infos: seq<AccountInfo>, account: AccountState,
                       args: RefreshArgs): Result<(Passkey, NonceData, Params)>
    requires 0 <= args.slothash < 0x1_0000
  {
    if |infos| < 4 then Err(NotEnoughAccountKeys)
    else
      match Whole(TakeVerificationData(args.verificationData))
      case None => Err(InvalidExtraVerificationDataArgs)
      case Some(v) =>
        var signed :- LoadSigned(rt, env, infos, account, v.publicKey, args.slothash);
        Ok((signed.0, signed.1, v.params))
  }

  function ProcessRefresh(rt: Runtime, env: Environment, infos: seq<AccountInfo>, account: AccountState,
                            data: bytes): Result<Outcome> {
    match Whole(TakeRefreshArgs(data))
    case None => Err(InvalidArgument)
    case Some(args) =>
      var checked :- CheckScheme(args.signatureScheme);
      var loaded :- LoadRefresh(rt, env, infos, account, args);
      var p :- ActRefresh(rt, env, loaded.0, loaded.1, loaded.2, args.sessionKey);
      Ok(Outcome(account.(data := Some(p)), []))
  }

  // ----- initialise

  function CheckUninitialized(rt: Runtime, account: AccountState): Result<Unit> {
    if account.owner != rt.systemProgramId then Err(InvalidAccountOwner)
    else if account.data.Some? then Err(InvalidAccountData)
    else Load(rt, account)
  }

  const QUOTE_BYTE: byte := 0x22

  function CheckRelyingPartyId(rpId: bytes): Result<Unit> {
    if |rpId| > 32 then Err(P256RelyingPartTooLong)
    else if QUOTE_BYTE in rpId then Err(P256RelyingPartIncludeQuotes)
    else Ok(Unit)
  }

  function LoadInitialize(rt: Runtime, env: Environment, infos: seq<AccountInfo>, account: AccountState,
                          args: InitializeArgs):
    (r: Result<(NonceData, InitializationData)>)
    requires 0 <= args.slothash < 0x1_0000
    ensures r.Ok? ==> |r.value.1.rpId| <= 32 && |r.value.1.publicKey| == 33
    ensures r.Ok? ==> account == AccountState(rt.systemProgramId, None)
    ensures r.Ok? ==> |infos| >= 5 && infos[0].key == PasskeyAddress(rt, r.value.1.publicKey)
    ensures r.Ok? ==> infos[2].key == rt.instructionsSysvarId && infos[3].key == rt.slotHashesId
    ensures r.Ok? ==> infos[4].key == rt.systemProgramId
    ensures r.Ok? ==> ValidateNonce(env.slots, args.slothash, env.stackHeight, infos[1]) == Ok(r.value.0)
    ensures r.Ok? ==> Whole(TakeInitializationData(args.initializationData)) == Some(r.value.1)
    ensures r.Ok? ==> QUOTE_BYTE !in r.value.1.rpId
  {
    if |infos| < 5 then Err(NotEnoughAccountKeys)
    else
      var uninitialized :- CheckUninitialized(rt, account);
      var sysvars :- CheckSysvars(rt, infos[2], infos[3]);
      if infos[4].key != rt.systemProgramId then Err(Panicked)
      else
        var nonce :- ValidateNonce(env.slots, args.slothash, env.stackHeight, infos[1]);
        match Whole(TakeInitializationData(args.initializationData))
        case None => Err(InvalidArgument)
        case Some(i) =>
          var named :- CheckRelyingPartyId(i.rpId);
          if PasskeyAddress(rt, i.publicKey) != infos[0].key then Err(InvalidAccountOwner) else Ok((nonce, i))
  }

  function ActInitialize(rt: Runtime, env: Environment, nonce: NonceData, i: InitializationData,
                         key: Option<RawSessionKey>):
    Result<Passkey>
    requires |i.rpId| <= 32 && |i.publicKey| == 33
  {
    if !env.creates then Err(InvokedProgramFailed)
    else
      var fields :- InitializeAccount(BLANK, NewRelyingParty(rt, i.rpId), i.publicKey, key, env.now);
      VerifyPayload(rt, env.transaction, fields, i.params, rt.sha256(InitializePreimage(nonce, key)))
  }

  function ProcessInitialize(rt: Runtime, env: Environment, infos: seq<AccountInfo>, account: AccountState,
                             data: bytes): Result<Outcome> {
    match Whole(TakeInitializeArgs(data))
    case None => Err(InvalidArgument)
    case Some(args) =>
      var checked :- CheckScheme(args.signatureScheme);
      var loaded :- LoadInitialize(rt, env, infos, account, args);
      var p :- ActInitialize(rt, env, loaded.0, loaded.1, AsRaw(args.sessionKey));
      Ok(Outcome(AccountState(rt.programId, Some(p)), []))
  }

  // ----- the instructions over an account in place

  /** How an instruction relates to its specification; a failed one promises nothing about the account, which the
      runtime then restores. */
  ghost predicate Processed(r: Result<seq<Call>>, after: AccountState, expected: Result<Outcome>) {
    match expected
    case Ok(outcome) => r == Ok(outcome.calls) && after == outcome.account
    case Err(e) => r == Err(e)
  }

  /** Whatever loads is data of this program. */
  lemma LoadedSigned(rt: Runtime, env: Environment, infos: seq<AccountInfo>, a: AccountState, publicKey: bytes,
                     slot: u16)
    requires |infos| >= 4 && LoadSigned(rt, env, infos, a, publicKey, slot).Ok?
    ensures a == AccountState(rt.programId, Some(LoadSigned(rt, env, infos, a, publicKey, slot).value.0))
  {
  }

  lemma LoadedExecute(rt: Runtime, env: Environment, infos: seq<AccountInfo>, a: AccountState, args: ExecuteArgs)
    requires 0 <= args.slothash < 0x1_0000 && LoadExecute(rt, env, infos, a, args).Ok?
    ensures a == AccountState(rt.programId, Some(LoadExecute(rt, env, infos, a, args).value.passkey))
  {
    var v := Whole(TakeVerificationData(args.extraVerificationData)).value;
    LoadedSigned(rt, env, infos, a, v.publicKey, args.slothash);
  }

  lemma LoadedRefresh(rt: Runtime, env: Environment, infos: seq<AccountInfo>, a: AccountState, args: RefreshArgs)
    requires 0 <= args.slothash < 0x1_0000 && LoadRefresh(rt, env, infos, a, args).Ok?
    ensures a == AccountState(rt.programId, Some(LoadRefresh(rt, env, infos, a, args).value.0))
  {
    var v := Whole(TakeVerificationData(args.verificationData)).value;
    LoadedSigned(rt, env, infos, a, v.publicKey, args.slothash);
  }

  method ProcessExecuteInstructions(rt: Runtime, env: Environment, infos: seq<AccountInfo>, account: ExternalAccount,
                                    data: bytes)
    returns (r: Result<seq<Call>>)
    modifies account
    ensures Processed(r, account.State(), ProcessExecute(rt, env, infos, old(account.State()), data))
  {
    var args := Whole(TakeExecuteArgs(data));
    if args.None? { return Err(InvalidExecutionArgs); }
    var checked := CheckScheme(args.value.signatureScheme);
    if checked.Err? { return Err(checked.error); }
    var loaded := LoadExecute(rt, env, infos, account.State(), args.value);
    if loaded.Err? { return Err(loaded.error); }
    LoadedExecute(rt, env, infos, account.State(), args.value);
    r := VerifyAndInvoke(rt, env, infos[4..], account, loaded.value, args.value.instructions);
  }

  method VerifyAndInvoke(rt: Runtime, env: Environment, infos: seq<AccountInfo>, account: ExternalAccount,
                         loaded: Loaded,
                         instructions: seq<CompiledInstruction>) returns (r: Result<seq<Call>>)
    requires account.State().data == Some(loaded.passkey)
    modifies account
    ensures Processed(r, account.State(), ActExecute(rt, env, infos, old(account.State()), loaded, instructions))
  {
    var payload := BuildExecutePayload(loaded.nonce, infos, instructions);
    if payload.None? { return Err(Panicked); }
    var verified := account.Verify(rt, env.transaction, loaded.params, rt.sha256(payload.value));
    if verified.Err? { return Err(verified.error); }
    r := InvokeAll(ContextOf(rt, env, infos, loaded.executionKey, loaded.scheme), instructions);
  }

  method ProcessExecuteInstructionsSessioned(rt: Runtime, env: Environment, infos: seq<AccountInfo>,
                                             account: ExternalAccount, data: bytes)
    returns (r: Result<seq<Call>>)
    ensures Processed(r, account.State(), ProcessSessioned(rt, env, infos, account.State(), data))
  {
    var args := Whole(TakeSessionedArgs(data));
    if args.None? { return Err(InvalidExecutionArgs); }
    var checked := CheckScheme(args.value.signatureScheme);
    if checked.Err? { return Err(checked.error); }
    if |infos| < 2 { return Err(NotEnoughAccountKeys); }
    var p := LoadData(rt, account.State());
    if p.Err? { return Err(p.error); }
    var valid := IsValidSessionKey(p.value, infos[1], env.now);
    if valid.Err? { return Err(valid.error); }
    var scheme := SchemeOf(args.value.signerExecutionScheme);
    if scheme.Err? { return Err(scheme.error); }
    var executionKey := ExecutionKey(rt, infos[0].key, p.value, scheme.value);
    r := InvokeAllSessioned(ContextOf(rt, env, infos[2..], executionKey, scheme.value), args.value.instructions);
  }

  method ProcessRefreshSessionKey(rt: Runtime, env: Environment, infos: seq<AccountInfo>, account: ExternalAccount,
                                  data: bytes)
    returns (r: Result<seq<Call>>)
    modifies account
    ensures Processed(r, account.State(), ProcessRefresh(rt, env, infos, old(account.State()), data))
  {
    var args := Whole(TakeRefreshArgs(data));
    if args.None? { return Err(InvalidArgument); }
    var checked := CheckScheme(args.value.signatureScheme);
    if checked.Err? { return Err(checked.error); }
    var loaded := LoadRefresh(rt, env, infos, account.State(), args.value);
    if loaded.Err? { return Err(loaded.error); }
    LoadedRefresh(rt, env, infos, account.State(), args.value);
    var refreshed := VerifyAndRefresh(rt, env, account, loaded.value.1, loaded.value.2, args.value.sessionKey);
    r := if refreshed.Err? then Err(refreshed.error) else Ok([]);
  }

  method VerifyAndRefresh(rt: Runtime, env: Environment, account: ExternalAccount, nonce: NonceData, params: Params,
                          key: RawSessionKey)
    returns (r: Result<Unit>)
    requires account.hasData
    modifies account
    ensures Updated(r, account.State(), old(account.owner), ActRefresh(rt, env, old(account.Data()), nonce, params,
                    key))
  {
    var payload := BuildRefreshPayload(nonce, key);
    var verified := account.Verify(rt, env.transaction, params, rt.sha256(payload));
    if verified.Err? { return Err(verified.error); }
    var expiration := RefreshedExpiration(env.now, key.expiration);
    r := account.StoreSessionKey(SessionKey(key.key, expiration), env.now);
  }

  method ProcessInitializeExternalAccount(rt: Runtime, env: Environment, infos: seq<AccountInfo>,
                                          account: ExternalAccount, data: bytes)
    returns (r: Result<seq<Call>>)
    modifies account
    ensures Processed(r, account.State(), ProcessInitialize(rt, env, infos, old(account.State()), data))
  {
    var args := Whole(TakeInitializeArgs(data));
    if args.None? { return Err(InvalidArgument); }
    var checked := CheckScheme(args.value.signatureScheme);
    if checked.Err? { return Err(checked.error); }
    var loaded := LoadInitialize(rt, env, infos, account.State(), args.value);
    if loaded.Err? { return Err(loaded.error); }
    var initialized := CreateInitializeVerify(rt, env, account, loaded.value.0, loaded.value.1,
                                              AsRaw(args.value.sessionKey));
    r := if initialized.Err? then Err(initialized.error) else Ok([]);
  }

  method CreateInitializeVerify(rt: Runtime, env: Environment, account: ExternalAccount, nonce: NonceData,
                                i: InitializationData,
                                key: Option<RawSessionKey>) returns (r: Result<Unit>)
    requires |i.rpId| <= 32 && |i.publicKey| == 33
    modifies account
    ensures Updated(r, account.State(), rt.programId, ActInitialize(rt, env, nonce, i, key))
  {
    var payload := BuildInitializePayload(nonce, key);
    if !env.creates { return Err(InvokedProgramFailed); }
    account.Create(rt);
    r := account.Initialize(NewRelyingParty(rt, i.rpId), i.publicKey, key, env.now);
    if r.Err? { return; }
    r := account.Verify(rt, env.transaction, i.params, rt.sha256(payload));
  }
}

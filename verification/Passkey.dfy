// A passkey account: what it stores, and the checks that read and update it.
module Passkey {
  import opened Basics
  import opened Endian
  import opened Nonce
  import opened ClientData
  import opened Wire
  import opened Preimages
  import opened Precompile

  /** What the program takes from the runtime: hashing, address derivation and the well-known addresses. */
  datatype Runtime = Runtime(sha256: bytes -> Hash, findProgramAddress: seq<bytes> -> Key, programId: Key,
                             systemProgramId: Key, instructionsSysvarId: Key, slotHashesId: Key, precompileId: Key)

  /** The relying party: its id in a fixed buffer, and the hash of the id. */
  datatype RelyingParty = RelyingParty(length: byte, buffer: Hash, hash: Hash)

  datatype Passkey = Passkey(version: byte, scheme: byte, rp: RelyingParty, publicKey: PublicKey,
                             sessionKey: RawSessionKey, counter: u64)

  /** An account: its owner and, once allocated, its data. */
  datatype AccountState = AccountState(owner: Key, data: Option<Passkey>)

  const SESSION_KEY_EXPIRATION_LIMIT: int := 3 * 30 * 24 * 60 * 60
  const VERSION: byte := 1
  const P256_WEBAUTHN: byte := 0

  // ----- relying party

  function NewRelyingParty(rt: Runtime, rpId: bytes): RelyingParty
    requires |rpId| <= 32
  {
    RelyingParty(|rpId|, rpId + Zeros(32 - |rpId|), rt.sha256(rpId))
  }

  function RpId(rp: RelyingParty): Result<bytes> {
    if rp.length > 32 then Err(Panicked) else Ok(rp.buffer[..rp.length])
  }

  lemma RpIdReadsBack(rt: Runtime, rpId: bytes)
    requires |rpId| <= 32
    ensures RpId(NewRelyingParty(rt, rpId)) == Ok(rpId)
  {
    assert (rpId + Zeros(32 - |rpId|))[..|rpId|] == rpId;
  }

  // ----- addresses

  function PasskeyAddress(rt: Runtime, publicKey: bytes): Key {
    rt.findProgramAddress([Ascii("passkey"), rt.sha256(publicKey)])
  }

  function CheckAccount(rt: Runtime, info: AccountInfo, publicKey: bytes): Result<Key> {
    if !info.isWritable then Err(P256AccountNotWritable)
    else
      var key := PasskeyAddress(rt, publicKey);
      if key != info.key then Err(InvalidAccountOwner) else Ok(key)
  }

  // ----- loading

  function Load(rt: Runtime, a: AccountState): Result<Unit> {
    var owner := if a.data.None? then rt.systemProgramId else rt.programId;
    if a.owner != owner then Err(Panicked) else Ok(Unit)
  }

  /** The data behind a header of this version and scheme; an account without data has no header to read. */
  function DataOf(a: AccountState): Result<Passkey> {
    match a.data
    case None => Err(Panicked)
    case Some(p) => if p.version != VERSION || p.scheme != P256_WEBAUTHN then Err(ErrorDeserializingHeader) else Ok(p)
  }

  // ----- assertions

  function Counter(authData: bytes): u32
    requires |authData| >= 37
  {
    Widths();
    WritesBackBE(authData[33..37]);
    FromBE(authData[33..37])
  }

  /** The counter is the four big-endian bytes after the hash and the flags. */
  lemma {:induction false} CounterReads(h: Hash, flags: byte, v: u32, rest: bytes)
    ensures Counter(h + [flags] + BE(v, 4) + rest) == v
  {
    Widths();
    ReadsBackBE(v, 4);
    assert (h + [flags] + BE(v, 4) + rest)[33..37] == BE(v, 4);
  }

  /** A zero counter is ignored; any other must exceed the stored one. */
  function UpdateCounter(p: Passkey, counter: u32): Result<Passkey> {
    if counter == 0 then Ok(p)
    else if counter > p.counter then Ok(p.(counter := counter))
    else Err(Panicked)
  }

  function CheckAssertion(rt: Runtime, p: Passkey, params: Params, payload: bytes, authData: bytes,
                          clientDataHash: bytes): Result<Passkey>
  {
    if |authData| <= 32 then Err(Panicked)
    else if authData[32] % 2 == 0 then Err(P256UserNotPresent)
    else
      var rpId :- RpId(p.rp);
      if p.rp.hash != authData[..32] then Err(P256RelyingPartyMismatch)
      else
        var document :- Reconstruct(params, rpId, payload);
        if rt.sha256(document) != clientDataHash then Err(P256ClientDataHashMismatch)
        else if |authData| < 37 then Err(Panicked)
        else UpdateCounter(p, Counter(authData))
  }

  /** The precompile's message splits into authenticator data and a 32-byte hash. */
  function CheckMessage(rt: Runtime, p: Passkey, params: Params, payload: bytes, message: bytes): Result<Passkey> {
    if |message| < 32 then Err(Panicked)
    else CheckAssertion(rt, p, params, payload, message[..|message| - 32], message[|message| - 32..])
  }

  /** The single signature checked by the transaction's first instruction. */
  function FirstSignature(rt: Runtime, transaction: seq<TxInstruction>): Result<SignaturePayload> {
    if |transaction| == 0 then Err(InvalidInstructionData)
    else if transaction[0].programId != rt.precompileId then Err(InvalidPrecompileId)
    else
      var count :- NumSignatures(transaction[0].data);
      if count != 1 then Err(InvalidNumPrecompileSignatures)
      else GetSignaturePayload(transaction, transaction[0].data, 0)
  }

  /** The first instruction is the precompile's and checks one signature. */
  predicate OneSignature(rt: Runtime, transaction: seq<TxInstruction>) {
    |transaction| > 0 && transaction[0].programId == rt.precompileId
    && |transaction[0].data| > 0 && transaction[0].data[0] == 1
  }

  /** The precompile's one signature is checked under this key over this message. */
  ghost predicate Carried(rt: Runtime, transaction: seq<TxInstruction>, publicKey: bytes, message: bytes) {
    OneSignature(rt, transaction)
    && exists signature :: PayloadStands(transaction, transaction[0].data, signature, publicKey, message)
  }

  /** A payload is read if and only if the precompile checks it, alone, in the transaction's first instruction. */
  lemma FirstSignatureExact(rt: Runtime, transaction: seq<TxInstruction>, s: SignaturePayload)
    ensures FirstSignature(rt, transaction) == Ok(s) <==>
              OneSignature(rt, transaction)
              && PayloadStands(transaction, transaction[0].data, s.signature, s.publicKey, s.message)
  {
    if OneSignature(rt, transaction) {
      PayloadExact(transaction, transaction[0].data, s.signature, s.publicKey, s.message);
    }
  }

  lemma CarriedExact(rt: Runtime, transaction: seq<TxInstruction>, publicKey: bytes, message: bytes)
    ensures Carried(rt, transaction, publicKey, message) <==>
              FirstSignature(rt, transaction).Ok? && FirstSignature(rt, transaction).value.publicKey == publicKey
              && FirstSignature(rt, transaction).value.message == message
  {
    var r := FirstSignature(rt, transaction);
    if r.Ok? { FirstSignatureExact(rt, transaction, r.value); }
    if Carried(rt, transaction, publicKey, message) {
      var signature :| PayloadStands(transaction, transaction[0].data, signature, publicKey, message);
      FirstSignatureExact(rt, transaction, SignaturePayload(signature, publicKey, message));
    }
  }

  /** Another program's instruction, no data, and any other count are refused, each by its own error. */
  lemma FirstSignatureRefuses(rt: Runtime, transaction: seq<TxInstruction>)
    ensures transaction == [] ==> FirstSignature(rt, transaction) == Err(InvalidInstructionData)
    ensures transaction != [] && transaction[0].programId != rt.precompileId ==>
              FirstSignature(rt, transaction) == Err(InvalidPrecompileId)
    ensures transaction != [] && transaction[0].programId == rt.precompileId && transaction[0].data == [] ==>
              FirstSignature(rt, transaction) == Err(Panicked)
    ensures transaction != [] && transaction[0].programId == rt.precompileId && transaction[0].data != []
            && transaction[0].data[0] != 1 ==>
              FirstSignature(rt, transaction) == Err(InvalidNumPrecompileSignatures)
  {
  }

  function VerifyPayload(rt: Runtime, transaction: seq<TxInstruction>, p: Passkey, params: Params, payload: bytes):
    Result<Passkey> {
    var signed :- FirstSignature(rt, transaction);
    if signed.publicKey != p.publicKey then Err(P256PublicKeyMismatch)
    else CheckMessage(rt, p, params, payload, signed.message)
  }

  // ----- session keys

  /** `x as u64` */
  function AsU64(x: i64): u64 { x % 0x1_0000_0000_0000_0000 }

  /** `x as i64`, and the wrapped result of an i64 addition */
  function WrapI64(x: int): i64 {
    var r := x % 0x1_0000_0000_0000_0000;
    if r < 0x8000_0000_0000_0000 then r else r - 0x1_0000_0000_0000_0000
  }

  /** The latest expiration that may be stored now; the addition wraps. */
  function LatestExpiration(now: i64): u64 {
    (AsU64(now) + SESSION_KEY_EXPIRATION_LIMIT) % 0x1_0000_0000_0000_0000
  }

  function UpdateSessionKey(p: Passkey, key: RawSessionKey, now: i64): Result<Passkey> {
    if key.expiration > LatestExpiration(now) then Err(InvalidSessionKeyExpiration) else Ok(p.(sessionKey := key))
  }

  function IsValidSessionKey(p: Passkey, signer: AccountInfo, now: i64): Result<Unit> {
    if !signer.isSigner then Err(SessionSignerNotASigner)
    else if p.sessionKey.key != signer.key then Err(InvalidSessionKey)
    else if p.sessionKey.expiration < AsU64(now) then Err(SessionKeyExpired)
    else Ok(Unit)
  }

  /** The expiration a refresh computes from a duration. */
  function RefreshedExpiration(now: i64, duration: u64): u64 {
    AsU64(WrapI64(now + WrapI64(duration)))
  }

  const TWO64: int := 0x1_0000_0000_0000_0000

  lemma WholeTurn(x: int)
    ensures (x - TWO64) % TWO64 == x % TWO64
  {
  }

  lemma WithinTurn(x: int)
    requires 0 <= x < 2 * TWO64
    ensures x % TWO64 == if x < TWO64 then x else x - TWO64
  {
  }

  lemma UnwrapsWrapped(x: int)
    ensures AsU64(WrapI64(x)) == x % TWO64
  {
    WholeTurn(x % TWO64);
  }

  /** Through all casts and the wrapping addition, a refresh is addition modulo 2^64. */
  lemma RefreshIsModular(now: i64, duration: u64)
    ensures RefreshedExpiration(now, duration) == (now + duration) % 0x1_0000_0000_0000_0000
  {
    UnwrapsWrapped(now + WrapI64(duration));
    WithinTurn(duration);
    WholeTurn(now + duration);
  }

  lemma LatestIsSum(now: i64)
    requires now >= 0
    ensures LatestExpiration(now) == now + SESSION_KEY_EXPIRATION_LIMIT
  {
    WithinTurn(now);
    WithinTurn(now + SESSION_KEY_EXPIRATION_LIMIT);
  }

  lemma RefreshedIs(now: i64, duration: u64)
    requires now >= 0
    ensures RefreshedExpiration(now, duration)
            == if now + duration < TWO64 then now + duration else now + duration - TWO64
  {
    RefreshIsModular(now, duration);
    WithinTurn(now + duration);
  }

  /** What a refresh stores at a nonnegative time: the asked duration when it is within the limit, an expiration
      already past when the sum wraps, and nothing otherwise. */
  lemma RefreshArithmetic(p: Passkey, key: Key, now: i64, duration: u64)
    requires now >= 0
    ensures duration <= SESSION_KEY_EXPIRATION_LIMIT ==>
              UpdateSessionKey(p, SessionKey(key, RefreshedExpiration(now, duration)), now)
              == Ok(p.(sessionKey := SessionKey(key, now + duration)))
    ensures SESSION_KEY_EXPIRATION_LIMIT < duration < 0x1_0000_0000_0000_0000 - now ==>
              UpdateSessionKey(p, SessionKey(key, RefreshedExpiration(now, duration)), now)
              == Err(InvalidSessionKeyExpiration)
    ensures duration >= 0x1_0000_0000_0000_0000 - now ==>
              (now + duration - 0x1_0000_0000_0000_0000 < now
              && UpdateSessionKey(p, SessionKey(key, RefreshedExpiration(now, duration)), now)
                 == Ok(p.(sessionKey := SessionKey(key, now + duration - 0x1_0000_0000_0000_0000))))
  {
    LatestIsSum(now);
    RefreshedIs(now, duration);
  }

  // ----- initialisation

  function InitializeAccount(p: Passkey, rp: RelyingParty, publicKey: PublicKey, sessionKey: Option<RawSessionKey>,
                             now: i64): Result<Passkey>
  {
    var fields := WithHeader(p).(rp := rp, publicKey := publicKey, counter := 0);
    match sessionKey
    case None => Ok(fields)
    case Some(key) => UpdateSessionKey(fields, key, now)
  }

  /** The data under this version and scheme. */
  function WithHeader(p: Passkey): Passkey { p.(version := VERSION, scheme := P256_WEBAUTHN) }

  /** Freshly allocated account data. */
  const BLANK: Passkey := Passkey(0, 0, RelyingParty(0, Zeros(32), Zeros(32)), Zeros(33), SessionKey(Zeros(32), 0), 0)

  // ----- the account in place

  /** How a state-changing check relates to its specification: same error, or the new data in place. */
  ghost predicate Updated(r: Result<Unit>, after: AccountState, owner: Key, expected: Result<Passkey>) {
    match expected
    case Ok(p) => r == Ok(Unit) && after == AccountState(owner, Some(p))
    case Err(e) => r == Err(e)
  }

  class ExternalAccount {
    var owner: Key
    var hasData: bool
    var version: byte
    var scheme: byte
    var rp: RelyingParty
    var publicKey: PublicKey
    var sessionKey: RawSessionKey
    var counter: u64

    function Data(): Passkey
      reads this
    {
      Passkey(version, scheme, rp, publicKey, sessionKey, counter)
    }

    function State(): AccountState
      reads this
    {
      AccountState(owner, if hasData then Some(Data()) else None)
    }

    constructor (a: AccountState)
      ensures State() == a
    {
      owner := a.owner;
      hasData := a.data.Some?;
      var p := if a.data.Some? then a.data.value else BLANK;
      version, scheme, rp, publicKey := p.version, p.scheme, p.rp, p.publicKey;
      sessionKey, counter := p.sessionKey, p.counter;
    }

    /** The system program allocates zeroed data and hands the account to the program. */
    method Create(rt: Runtime)
      modifies this
      ensures State() == AccountState(rt.programId, Some(BLANK))
    {
      hasData := true;
      version, scheme, rp, publicKey := BLANK.version, BLANK.scheme, BLANK.rp, BLANK.publicKey;
      sessionKey, counter := BLANK.sessionKey, BLANK.counter;
      owner := rt.programId;
    }

    method InitializeHeader()
      modifies this
      ensures State() == old(AccountState(owner, if hasData then Some(WithHeader(Data())) else None))
    {
      version := VERSION;
      scheme := P256_WEBAUTHN;
    }

    method Initialize(party: RelyingParty, key: PublicKey, session: Option<RawSessionKey>, now: i64)
      returns (r: Result<Unit>)
      requires hasData
      modifies this
      ensures Updated(r, State(), old(owner), InitializeAccount(old(Data()), party, key, session, now))
    {
      InitializeHeader();
      rp := party;
      publicKey := key;
      counter := 0;
      if session.Some? {
        if session.value.expiration > LatestExpiration(now) { return Err(InvalidSessionKeyExpiration); }
        sessionKey := session.value;
      }
      return Ok(Unit);
    }

    method Verify(rt: Runtime, transaction: seq<TxInstruction>, params: Params, payload: bytes)
      returns (r: Result<Unit>)
      requires hasData
      modifies this
      ensures Updated(r, State(), old(owner), VerifyPayload(rt, transaction, old(Data()), params, payload))
    {
      var signed := FirstSignature(rt, transaction);
      if signed.Err? { return Err(signed.error); }
      if signed.value.publicKey != publicKey { return Err(P256PublicKeyMismatch); }
      var message := signed.value.message;
      if |message| < 32 { return Err(Panicked); }
      var authData, clientDataHash := message[..|message| - 32], message[|message| - 32..];
      r := VerifyAssertion(rt, params, payload, authData, clientDataHash);
    }

    method VerifyAssertion(rt: Runtime, params: Params, payload: bytes, authData: bytes, clientDataHash: bytes)
      returns (r: Result<Unit>)
      requires hasData
      modifies this
      ensures Updated(r, State(), old(owner),
                      CheckAssertion(rt, old(Data()), params, payload, authData, clientDataHash))
    {
      if |authData| <= 32 { return Err(Panicked); }
      if authData[32] % 2 == 0 { return Err(P256UserNotPresent); }
      var rpId := RpId(rp);
      if rpId.Err? { return Err(rpId.error); }
      if rp.hash != authData[..32] { return Err(P256RelyingPartyMismatch); }
      var document := ReconstructClientDataJson(params, rpId.value, payload);
      if document.Err? { return Err(document.error); }
      if rt.sha256(document.value) != clientDataHash { return Err(P256ClientDataHashMismatch); }
      if |authData| < 37 { return Err(Panicked); }
      var c := Counter(authData);
      if c != 0 {
        if c <= counter { return Err(Panicked); }
        counter := c;
      }
      return Ok(Unit);
    }

    method StoreSessionKey(key: RawSessionKey, now: i64) returns (r: Result<Unit>)
      requires hasData
      modifies this
      ensures Updated(r, State(), old(owner), UpdateSessionKey(old(Data()), key, now))
    {
      if key.expiration > LatestExpiration(now) { return Err(InvalidSessionKeyExpiration); }
      sessionKey := key;
      return Ok(Unit);
    }
  }
}

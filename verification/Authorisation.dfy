// What a verified assertion says: which messages verify, and that one message authorises one action.
module Authorisation {
  import opened Basics
  import opened Text
  import opened Nonce
  import opened ClientData
  import opened TemplateInjective
  import opened Wire
  import opened Preimages
  import opened Precompile
  import opened Passkey

  // ----- which messages verify

  /** The message is authenticator data for this account, followed by the hash of the template document over the
      payload. */
  ghost predicate Asserts(rt: Runtime, p: Passkey, params: Params, payload: bytes, message: bytes, authData: bytes,
                          rpId: string) {
    |authData| >= 37
    && message == authData + rt.sha256(Utf8(Template(MeaningOf(params), rpId, payload)))
    && RpId(p.rp) == Ok(Utf8(rpId))
    && authData[..32] == p.rp.hash
    && authData[32] % 2 == 1
    && (Counter(authData) == 0 || Counter(authData) > p.counter)
  }

  /** The data after an accepted assertion. */
  function Counted(p: Passkey, counter: u32): Passkey {
    p.(counter := if counter == 0 then p.counter else counter)
  }

  lemma MessageSplits(authData: bytes, h: Hash)
    ensures (authData + h)[..|authData|] == authData && (authData + h)[|authData|..] == h
  {
  }

  lemma SplitsMessage(message: bytes)
    requires |message| >= 32
    ensures message == message[..|message| - 32] + message[|message| - 32..]
  {
  }

  lemma AssertionAccepted(rt: Runtime, p: Passkey, params: Params, payload: bytes, message: bytes, authData: bytes,
                          rpId: string)
    requires Asserts(rt, p, params, payload, message, authData, rpId)
    ensures CheckMessage(rt, p, params, payload, message) == Ok(Counted(p, Counter(authData)))
  {
    var document := Utf8(Template(MeaningOf(params), rpId, payload));
    MessageSplits(authData, rt.sha256(document));
    Utf8Decodes(rpId);
    assert Reconstruct(params, Utf8(rpId), payload) == Ok(document);
  }

  lemma AcceptedAsserts(rt: Runtime, p: Passkey, params: Params, payload: bytes, message: bytes)
    returns (authData: bytes, rpId: string)
    requires CheckMessage(rt, p, params, payload, message).Ok?
    ensures Asserts(rt, p, params, payload, message, authData, rpId)
    ensures CheckMessage(rt, p, params, payload, message) == Ok(Counted(p, Counter(authData)))
  {
    SplitsMessage(message);
    authData := message[..|message| - 32];
    var id := RpId(p.rp).value;
    Utf8Exact(id, DecodeUtf8(id).value);
    rpId := DecodeUtf8(id).value;
  }

  /** The signature, key and message checks together, as a relation. */
  ghost predicate Signed(rt: Runtime, transaction: seq<TxInstruction>, p: Passkey, message: bytes) {
    Carried(rt, transaction, p.publicKey, message)
  }

  /** Verification is exact: it succeeds if and only if the transaction's one signature, under the account's key, is
      over an assertion of the payload. */
  lemma VerifyExact(rt: Runtime, transaction: seq<TxInstruction>, p: Passkey, params: Params, payload: bytes)
    ensures VerifyPayload(rt, transaction, p, params, payload).Ok? <==>
              exists message, authData, rpId ::
                Signed(rt, transaction, p, message) && Asserts(rt, p, params, payload, message, authData, rpId)
    ensures forall message, authData, rpId ::
              Signed(rt, transaction, p, message) && Asserts(rt, p, params, payload, message, authData, rpId) ==>
                VerifyPayload(rt, transaction, p, params, payload) == Ok(Counted(p, Counter(authData)))
  {
    if VerifyPayload(rt, transaction, p, params, payload).Ok? {
      var message := FirstSignature(rt, transaction).value.message;
      CarriedExact(rt, transaction, p.publicKey, message);
      var authData, rpId := AcceptedAsserts(rt, p, params, payload, message);
      assert Signed(rt, transaction, p, message) && Asserts(rt, p, params, payload, message, authData, rpId);
    }
    forall message, authData, rpId |
      Signed(rt, transaction, p, message) && Asserts(rt, p, params, payload, message, authData, rpId)
      ensures VerifyPayload(rt, transaction, p, params, payload) == Ok(Counted(p, Counter(authData)))
    {
      CarriedExact(rt, transaction, p.publicKey, message);
      AssertionAccepted(rt, p, params, payload, message, authData, rpId);
    }
  }

  // ----- one message, one payload

  predicate Collides(rt: Runtime, x: bytes, y: bytes) {
    x != y && rt.sha256(x) == rt.sha256(y)
  }

  /** The document an account's verification hashes. */
  function Document(p: Passkey, params: Params, payload: bytes): bytes {
    var rpId := RpId(p.rp);
    if rpId.Err? || Reconstruct(params, rpId.value, payload).Err? then []
    else Reconstruct(params, rpId.value, payload).value
  }

  lemma AcceptedHash(rt: Runtime, p: Passkey, params: Params, payload: bytes, message: bytes)
    requires CheckMessage(rt, p, params, payload, message).Ok?
    ensures |message| >= 32 && message[|message| - 32..] == rt.sha256(Document(p, params, payload))
    ensures RpId(p.rp).Ok? && Reconstruct(params, RpId(p.rp).value, payload) == Ok(Document(p, params, payload))
  {
  }

  /** A message that verifies for two payloads, whatever the counters, is a hash collision between their documents. */
  lemma OneMessageOnePayload(rt: Runtime, p: Passkey, p': Passkey, params: Params, params': Params, payload: bytes,
                             payload': bytes, message: bytes)
    requires p.rp == p'.rp
    requires CheckMessage(rt, p, params, payload, message).Ok? && CheckMessage(rt, p', params', payload', message).Ok?
    ensures (payload == payload' && MeaningOf(params) == MeaningOf(params'))
            || Collides(rt, Document(p, params, payload), Document(p', params', payload'))
  {
    AcceptedHash(rt, p, params, payload, message);
    AcceptedHash(rt, p', params', payload', message);
    ReconstructionDetermines(params, payload, params', payload', RpId(p.rp).value);
  }

  // ----- one message, one action

  /** What a passkey is asked to authorise. */
  datatype Action =
    | Execute(nonce: NonceData, accounts: seq<AccountInfo>, instructions: seq<CompiledInstruction>)
    | Refresh(nonce: NonceData, key: RawSessionKey)
    | Initialize(nonce: NonceData, optionalKey: Option<RawSessionKey>)

  function Preimage(a: Action): Option<bytes> {
    match a
    case Execute(n, accounts, instructions) => ExecutePreimage(n, accounts, instructions)
    case Refresh(n, k) => Some(RefreshPreimage(n, k))
    case Initialize(n, k) => Some(InitializePreimage(n, k))
  }

  /** Few enough accounts and instructions for a count byte each, and every instruction serialises. */
  predicate Fits(a: Action) {
    Preimage(a).Some? && (a.Execute? ==> |a.accounts| <= 0xff && |a.instructions| <= 0xff)
  }

  lemma SameKindInjective(a: Action, b: Action)
    requires Fits(a) && Fits(b) && Preimage(a) == Preimage(b)
    requires (a.Execute? && b.Execute?) || (a.Refresh? && b.Refresh?) || (a.Initialize? && b.Initialize?)
    ensures a == b
  {
    match a
    case Execute(n, x, v) => ExecutePreimageInjective(n, x, v, b.nonce, b.accounts, b.instructions);
    case Refresh(n, k) => RefreshPreimageInjective(n, k, b.nonce, b.key);
    case Initialize(n, k) => InitializePreimageInjective(n, k, b.nonce, b.optionalKey);
  }

  lemma OtherKindDiffers(a: Action, b: Action)
    requires Fits(a) && Fits(b)
    requires a.Execute? != b.Execute? || a.Refresh? != b.Refresh?
    ensures Preimage(a) != Preimage(b)
  {
    TagOf(a);
    TagOf(b);
    BytesTell(Preimage(a).value, Preimage(b).value, Tag(a), Tag(b));
  }

  function Tag(a: Action): byte {
    match a case Execute(_, _, _) => 101 case Refresh(_, _) => 114 case Initialize(_, _) => 105
  }

  lemma TagOf(a: Action)
    requires Fits(a)
    ensures ByteAt(Preimage(a).value, 64, [Tag(a)], 0)
  {
    match a
    case Execute(n, x, v) => ExecuteTag(n, x, v);
    case Refresh(n, k) => RefreshTag(n, k);
    case Initialize(n, k) => InitializeTag(n, k);
  }

  /** A payload tells its action: the kind, the nonce and everything in it. */
  lemma PreimageDetermines(a: Action, b: Action)
    requires Fits(a) && Fits(b)
    ensures Preimage(a) == Preimage(b) <==> a == b
  {
    if Preimage(a) == Preimage(b) {
      if a.Execute? == b.Execute? && a.Refresh? == b.Refresh? { SameKindInjective(a, b); }
      else { OtherKindDiffers(a, b); }
    }
  }

  /** The challenge an action is signed under. */
  function Challenge(rt: Runtime, a: Action): Hash
    requires Preimage(a).Some?
  {
    rt.sha256(Preimage(a).value)
  }

  /** One signed message authorises one action: if it verifies for two, their payloads or their documents collide. */
  lemma OneMessageOneAction(rt: Runtime, p: Passkey, p': Passkey, params: Params, params': Params, a: Action,
                            b: Action, message: bytes)
    requires Fits(a) && Fits(b) && p.rp == p'.rp
    requires CheckMessage(rt, p, params, Challenge(rt, a), message).Ok?
    requires CheckMessage(rt, p', params', Challenge(rt, b), message).Ok?
    ensures a == b || Collides(rt, Preimage(a).value, Preimage(b).value)
            || Collides(rt, Document(p, params, Challenge(rt, a)), Document(p', params', Challenge(rt, b)))
  {
    OneMessageOnePayload(rt, p, p', params, params', Challenge(rt, a), Challenge(rt, b), message);
    PreimageDetermines(a, b);
  }
}

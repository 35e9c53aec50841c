// Runs of the four instructions over one passkey account.
module Runs {
  import opened Basics
  import opened Nonce
  import opened ClientData
  import opened Wire
  import opened Preimages
  import opened Challenges
  import opened Precompile
  import opened Passkey
  import opened Instructions

  datatype Kind = InitializeAccountIx | ExecuteIx | RefreshIx | SessionedIx

  /** An instruction that names the account, with everything the runtime gave it. */
  datatype Event = Event(kind: Kind, env: Environment, infos: seq<AccountInfo>, data: bytes)

  function Process(rt: Runtime, account: AccountState, e: Event): Result<Outcome> {
    match e.kind
    case InitializeAccountIx => ProcessInitialize(rt, e.env, e.infos, account, e.data)
    case ExecuteIx => ProcessExecute(rt, e.env, e.infos, account, e.data)
    case RefreshIx => ProcessRefresh(rt, e.env, e.infos, account, e.data)
    case SessionedIx => ProcessSessioned(rt, e.env, e.infos, account, e.data)
  }

  /** A failed instruction changes nothing. */
  function Step(rt: Runtime, account: AccountState, e: Event): AccountState {
    var r := Process(rt, account, e);
    if r.Ok? then r.value.account else account
  }

  /** The account after the first n events. */
  function After(rt: Runtime, start: AccountState, events: seq<Event>, n: nat): AccountState
    requires n <= |events|
  {
    if n == 0 then start else Step(rt, After(rt, start, events, n - 1), events[n - 1])
  }

  /** Event i succeeded in the run. */
  predicate Succeeded(rt: Runtime, start: AccountState, events: seq<Event>, i: nat)
    requires i < |events|
  {
    Process(rt, After(rt, start, events, i), events[i]).Ok?
  }

  /** The session key an instruction stores when it succeeds, read from its data and the clock alone. */
  function StoredBy(e: Event): Option<RawSessionKey> {
    match e.kind
    case RefreshIx => RefreshStores(e.data, e.env.now)
    case InitializeAccountIx => InitializeStores(e.data)
    case ExecuteIx => None
    case SessionedIx => None
  }

  function RefreshStores(data: bytes, now: i64): Option<RawSessionKey> {
    var args :- Whole(TakeRefreshArgs(data));
    Some(SessionKey(args.sessionKey.key, RefreshedExpiration(now, args.sessionKey.expiration)))
  }

  function InitializeStores(data: bytes): Option<RawSessionKey> {
    var args :- Whole(TakeInitializeArgs(data));
    AsRaw(args.sessionKey)
  }

  // ----- what one success says

  /** An assertion over some payload was verified, leaving the data `after`. */
  ghost predicate Verified(rt: Runtime, transaction: seq<TxInstruction>, before: Passkey, after: Passkey) {
    exists params: Params, payload: bytes :: VerifyPayload(rt, transaction, before, params, payload) == Ok(after)
  }

  lemma ActedExecute(rt: Runtime, env: Environment, infos: seq<AccountInfo>, a: AccountState, l: Loaded,
                     instructions: seq<CompiledInstruction>)
    requires ActExecute(rt, env, infos, a, l, instructions).Ok?
    ensures var after := ActExecute(rt, env, infos, a, l, instructions).value.account;
            after.owner == a.owner && after.data.Some? && Verified(rt, env.transaction, l.passkey, after.data.value)
  {
    var payload := rt.sha256(ExecutePreimage(l.nonce, infos, instructions).value);
    assert VerifyPayload(rt, env.transaction, l.passkey, l.params, payload).Ok?;
  }

  lemma ExecuteSucceeds(rt: Runtime, env: Environment, infos: seq<AccountInfo>, a: AccountState, data: bytes)
    returns (p: Passkey, after: Passkey)
    requires ProcessExecute(rt, env, infos, a, data).Ok?
    ensures a == AccountState(rt.programId, Some(p))
    ensures ProcessExecute(rt, env, infos, a, data).value.account == AccountState(rt.programId, Some(after))
    ensures Verified(rt, env.transaction, p, after)
  {
    var args := Whole(TakeExecuteArgs(data)).value;
    var l := LoadExecute(rt, env, infos, a, args).value;
    LoadedExecute(rt, env, infos, a, args);
    ActedExecute(rt, env, infos[4..], a, l, args.instructions);
    p, after := l.passkey, ProcessExecute(rt, env, infos, a, data).value.account.data.value;
  }

  lemma ActedRefresh(rt: Runtime, env: Environment, p: Passkey, nonce: NonceData, params: Params, key: RawSessionKey)
    returns (v: Passkey)
    requires ActRefresh(rt, env, p, nonce, params, key).Ok?
    ensures Verified(rt, env.transaction, p, v)
    ensures RefreshedExpiration(env.now, key.expiration) <= LatestExpiration(env.now)
    ensures ActRefresh(rt, env, p, nonce, params, key)
            == Ok(v.(sessionKey := SessionKey(key.key, RefreshedExpiration(env.now, key.expiration))))
  {
    v := VerifyPayload(rt, env.transaction, p, params, rt.sha256(RefreshPreimage(nonce, key))).value;
  }

  lemma RefreshSucceeds(rt: Runtime, env: Environment, infos: seq<AccountInfo>, a: AccountState, data: bytes)
    returns (p: Passkey, verified: Passkey, key: RawSessionKey)
    requires ProcessRefresh(rt, env, infos, a, data).Ok?
    ensures RefreshStores(data, env.now) == Some(key)
    ensures a == AccountState(rt.programId, Some(p))
    ensures Verified(rt, env.transaction, p, verified)
    ensures key.expiration <= LatestExpiration(env.now)
    ensures ProcessRefresh(rt, env, infos, a, data).value.account
            == AccountState(rt.programId, Some(verified.(sessionKey := key)))
  {
    var args := Whole(TakeRefreshArgs(data)).value;
    var l := LoadRefresh(rt, env, infos, a, args).value;
    LoadedRefresh(rt, env, infos, a, args);
    p := l.0;
    verified := ActedRefresh(rt, env, l.0, l.1, l.2, args.sessionKey);
    key := SessionKey(args.sessionKey.key, RefreshedExpiration(env.now, args.sessionKey.expiration));
  }

  lemma ActedInitialize(rt: Runtime, env: Environment, nonce: NonceData, i: InitializationData,
                        key: Option<RawSessionKey>)
    returns (fields: Passkey)
    requires |i.rpId| <= 32 && |i.publicKey| == 33
    requires ActInitialize(rt, env, nonce, i, key).Ok?
    ensures InitializeAccount(BLANK, NewRelyingParty(rt, i.rpId), i.publicKey, key, env.now) == Ok(fields)
    ensures Verified(rt, env.transaction, fields, ActInitialize(rt, env, nonce, i, key).value)
  {
    fields := InitializeAccount(BLANK, NewRelyingParty(rt, i.rpId), i.publicKey, key, env.now).value;
    assert VerifyPayload(rt, env.transaction, fields, i.params, rt.sha256(InitializePreimage(nonce, key))).Ok?;
  }

  lemma InitializeSucceeds(rt: Runtime, env: Environment, infos: seq<AccountInfo>, a: AccountState, data: bytes)
    returns (fields: Passkey, after: Passkey, rp: RelyingParty, publicKey: PublicKey, key: Option<RawSessionKey>)
    requires ProcessInitialize(rt, env, infos, a, data).Ok?
    ensures InitializeStores(data) == key
    ensures infos != [] && infos[0].key == PasskeyAddress(rt, publicKey)
    ensures a == AccountState(rt.systemProgramId, None)
    ensures InitializeAccount(BLANK, rp, publicKey, key, env.now) == Ok(fields)
    ensures Verified(rt, env.transaction, fields, after)
    ensures ProcessInitialize(rt, env, infos, a, data).value.account == AccountState(rt.programId, Some(after))
  {
    var args := Whole(TakeInitializeArgs(data)).value;
    var (nonce, i) := LoadInitialize(rt, env, infos, a, args).value;
    key := AsRaw(args.sessionKey);
    fields := ActedInitialize(rt, env, nonce, i, key);
    rp, publicKey := NewRelyingParty(rt, i.rpId), i.publicKey;
    after := ActInitialize(rt, env, nonce, i, key).value;
  }

  lemma SessionedSucceeds(rt: Runtime, env: Environment, infos: seq<AccountInfo>, a: AccountState, data: bytes)
    returns (p: Passkey)
    requires ProcessSessioned(rt, env, infos, a, data).Ok?
    ensures a == AccountState(rt.programId, Some(p))
    ensures ProcessSessioned(rt, env, infos, a, data).value.account == a
    ensures |infos| >= 2 && IsValidSessionKey(p, infos[1], env.now).Ok?
  {
    p := LoadData(rt, a).value;
    SessionedActs(rt, env, infos, a, p, Whole(TakeSessionedArgs(data)).value);
    LoadedIsOwned(rt, a);
  }

  lemma LoadedIsOwned(rt: Runtime, a: AccountState)
    requires LoadData(rt, a).Ok?
    ensures a == AccountState(rt.programId, Some(LoadData(rt, a).value))
  {
  }

  lemma SessionedActs(rt: Runtime, env: Environment, infos: seq<AccountInfo>, a: AccountState, p: Passkey,
                      args: SessionedArgs)
    requires |infos| >= 2 && ActSessioned(rt, env, infos, a, p, args).Ok?
    ensures ActSessioned(rt, env, infos, a, p, args).value.account == a
    ensures IsValidSessionKey(p, infos[1], env.now).Ok?
  {
  }

  // ----- counters

  /** The counter in the authenticator data of a message, where it is long enough. */
  function MessageCounter(message: bytes): u32 {
    if |message| >= 69 then Counter(message[..|message| - 32]) else 0
  }

  /** The counter of the transaction's assertion, where there is one. */
  function AssertedCounter(rt: Runtime, transaction: seq<TxInstruction>): u32 {
    var signed := FirstSignature(rt, transaction);
    if signed.Ok? then MessageCounter(signed.value.message) else 0
  }

  lemma CheckedAdvances(rt: Runtime, p: Passkey, params: Params, payload: bytes, message: bytes)
    requires CheckMessage(rt, p, params, payload, message).Ok?
    ensures CheckMessage(rt, p, params, payload, message) == UpdateCounter(p, MessageCounter(message))
  {
  }

  lemma VerifyChecksMessage(rt: Runtime, transaction: seq<TxInstruction>, p: Passkey, params: Params, payload: bytes)
    requires VerifyPayload(rt, transaction, p, params, payload).Ok?
    ensures FirstSignature(rt, transaction).Ok?
    ensures VerifyPayload(rt, transaction, p, params, payload)
            == CheckMessage(rt, p, params, payload, FirstSignature(rt, transaction).value.message)
  {
  }

  lemma VerifyIsUpdate(rt: Runtime, transaction: seq<TxInstruction>, p: Passkey, params: Params, payload: bytes)
    requires VerifyPayload(rt, transaction, p, params, payload).Ok?
    ensures VerifyPayload(rt, transaction, p, params, payload) == UpdateCounter(p, AssertedCounter(rt, transaction))
  {
    VerifyChecksMessage(rt, transaction, p, params, payload);
    CheckedAdvances(rt, p, params, payload, FirstSignature(rt, transaction).value.message);
  }

  /** A verified assertion moves the counter to its own when that is not zero, forward only, and changes nothing
      else. */
  lemma VerifiedAdvances(rt: Runtime, transaction: seq<TxInstruction>, before: Passkey, after: Passkey)
    requires Verified(rt, transaction, before, after)
    ensures after == before.(counter := after.counter) && before.counter <= after.counter
    ensures AssertedCounter(rt, transaction) == 0 ==> after.counter == before.counter
    ensures AssertedCounter(rt, transaction) != 0 ==> before.counter < AssertedCounter(rt, transaction) == after.counter
  {
    var params: Params, payload: bytes :| VerifyPayload(rt, transaction, before, params, payload) == Ok(after);
    VerifyIsUpdate(rt, transaction, before, params, payload);
    UpdateAdvances(before, AssertedCounter(rt, transaction));
  }

  lemma UpdateAdvances(p: Passkey, counter: u32)
    requires UpdateCounter(p, counter).Ok?
    ensures UpdateCounter(p, counter).value == p.(counter := if counter == 0 then p.counter else counter)
    ensures counter != 0 ==> p.counter < counter
  {
  }

  // ----- one step

  function CounterOf(a: AccountState): u64 {
    if a.data.Some? then a.data.value.counter else 0
  }

  /** Initialised stays initialised, under the same key and relying party, with a counter that does not fall. */
  predicate Kept(before: AccountState, after: AccountState) {
    && CounterOf(before) <= CounterOf(after)
    && (before.data.Some? ==>
      && after.data.Some?
      && after.data.value.publicKey == before.data.value.publicKey
      && after.data.value.rp == before.data.value.rp)
  }

  /** A success with this assertion counter moved the stored counter as it should. */
  predicate CounterMoved(before: AccountState, after: AccountState, counter: u32) {
    && (counter == 0 ==> CounterOf(after) == CounterOf(before))
    && (counter != 0 ==> CounterOf(before) < counter == CounterOf(after))
  }

  predicate IsAssertion(e: Event) { !e.kind.SessionedIx? }

  /** The session key in force, as far as there is one. */
  function SessionOf(a: AccountState): RawSessionKey {
    if a.data.Some? then a.data.value.sessionKey else BLANK.sessionKey
  }

  lemma ExecuteStep(rt: Runtime, a: AccountState, env: Environment, infos: seq<AccountInfo>, data: bytes)
    requires ProcessExecute(rt, env, infos, a, data).Ok?
    ensures var after := ProcessExecute(rt, env, infos, a, data).value.account;
            Kept(a, after) && CounterMoved(a, after, AssertedCounter(rt, env.transaction))
            && SessionOf(after) == SessionOf(a)
  {
    var p, after := ExecuteSucceeds(rt, env, infos, a, data);
    VerifiedAdvances(rt, env.transaction, p, after);
  }

  lemma RefreshStep(rt: Runtime, a: AccountState, env: Environment, infos: seq<AccountInfo>, data: bytes)
    requires ProcessRefresh(rt, env, infos, a, data).Ok?
    ensures var after := ProcessRefresh(rt, env, infos, a, data).value.account;
            Kept(a, after) && CounterMoved(a, after, AssertedCounter(rt, env.transaction))
            && RefreshStores(data, env.now) == Some(SessionOf(after))
            && SessionOf(after).expiration <= LatestExpiration(env.now)
  {
    var p, verified, key := RefreshSucceeds(rt, env, infos, a, data);
    VerifiedAdvances(rt, env.transaction, p, verified);
  }

  lemma InitializeStep(rt: Runtime, a: AccountState, env: Environment, infos: seq<AccountInfo>, data: bytes)
    requires ProcessInitialize(rt, env, infos, a, data).Ok?
    ensures var after := ProcessInitialize(rt, env, infos, a, data).value.account;
            a.data.None? && after.data.Some? && CounterMoved(a, after, AssertedCounter(rt, env.transaction))
            && SessionOf(after) == (match InitializeStores(data) case None => BLANK.sessionKey case Some(k) => k)
            && (InitializeStores(data).Some? ==> SessionOf(after).expiration <= LatestExpiration(env.now))
  {
    var fields, after, rp, publicKey, key := InitializeSucceeds(rt, env, infos, a, data);
    VerifiedAdvances(rt, env.transaction, fields, after);
  }

  /** What every step keeps, and what a successful assertion does to the counter. */
  lemma StepKeeps(rt: Runtime, a: AccountState, e: Event)
    ensures Kept(a, Step(rt, a, e))
    ensures Process(rt, a, e).Ok? && e.kind.InitializeAccountIx? ==> a.data.None? && Step(rt, a, e).data.Some?
    ensures Process(rt, a, e).Ok? && IsAssertion(e) ==>
              CounterMoved(a, Step(rt, a, e), AssertedCounter(rt, e.env.transaction))
    ensures !(Process(rt, a, e).Ok? && IsAssertion(e)) ==> Step(rt, a, e) == a
  {
    if Process(rt, a, e).Ok? {
      match e.kind
      case InitializeAccountIx => InitializeStep(rt, a, e.env, e.infos, e.data);
      case ExecuteIx => ExecuteStep(rt, a, e.env, e.infos, e.data);
      case RefreshIx => RefreshStep(rt, a, e.env, e.infos, e.data);
      case SessionedIx => var p := SessionedSucceeds(rt, e.env, e.infos, a, e.data);
    }
  }

  /** Only initialisation gives an account its data. */
  lemma StartsByInitializing(rt: Runtime, a: AccountState, e: Event)
    ensures a.data.None? && !(Process(rt, a, e).Ok? && e.kind.InitializeAccountIx?) ==> Step(rt, a, e) == a
  {
    if Process(rt, a, e).Ok? {
      match e.kind
      case InitializeAccountIx =>
      case ExecuteIx => var p, after := ExecuteSucceeds(rt, e.env, e.infos, a, e.data);
      case RefreshIx => var p, verified, key := RefreshSucceeds(rt, e.env, e.infos, a, e.data);
      case SessionedIx => var p := SessionedSucceeds(rt, e.env, e.infos, a, e.data);
    }
  }

  /** What every step does to the session key. */
  lemma StepStores(rt: Runtime, a: AccountState, e: Event)
    ensures Process(rt, a, e).Ok? && StoredBy(e).Some? ==>
              (SessionOf(Step(rt, a, e)) == StoredBy(e).value
              && StoredBy(e).value.expiration <= LatestExpiration(e.env.now))
    ensures !(Process(rt, a, e).Ok? && StoredBy(e).Some?) ==> SessionOf(Step(rt, a, e)) == SessionOf(a)
  {
    if Process(rt, a, e).Ok? {
      match e.kind
      case InitializeAccountIx => InitializeStep(rt, a, e.env, e.infos, e.data);
      case ExecuteIx => ExecuteStep(rt, a, e.env, e.infos, e.data);
      case RefreshIx => RefreshStep(rt, a, e.env, e.infos, e.data);
      case SessionedIx => var p := SessionedSucceeds(rt, e.env, e.infos, a, e.data);
    }
  }

  // ----- whole runs

  lemma KeptTransitive(a: AccountState, b: AccountState, c: AccountState)
    requires Kept(a, b) && Kept(b, c)
    ensures Kept(a, c)
  {
  }

  lemma KeptReflexive(a: AccountState)
    ensures Kept(a, a)
  {
  }

  lemma NextKeeps(rt: Runtime, start: AccountState, earlier: AccountState, events: seq<Event>, n: nat)
    requires n < |events| && Kept(earlier, After(rt, start, events, n))
    ensures Kept(earlier, After(rt, start, events, n + 1))
  {
    var before := After(rt, start, events, n);
    StepKeeps(rt, before, events[n]);
    KeptTransitive(earlier, before, Step(rt, before, events[n]));
  }

  lemma {:induction false} RunKeeps(rt: Runtime, start: AccountState, events: seq<Event>, i: nat, j: nat)
    requires i <= j <= |events|
    ensures Kept(After(rt, start, events, i), After(rt, start, events, j))
  {
    if i == j {
      KeptReflexive(After(rt, start, events, i));
    } else {
      RunKeeps(rt, start, events, i, j - 1);
      NextKeeps(rt, start, After(rt, start, events, i), events, j - 1);
    }
  }

  /** Over every run initialisation succeeds at most once, the key and relying party never change once set, the stored
      counter never falls, and the nonzero counters of accepted assertions strictly increase. */
  lemma {:induction false} RunInvariant(rt: Runtime, start: AccountState, events: seq<Event>, i: nat, j: nat)
    requires i < j < |events|
    ensures Kept(After(rt, start, events, i), After(rt, start, events, j))
    ensures Succeeded(rt, start, events, i) && events[i].kind.InitializeAccountIx?
            && events[j].kind.InitializeAccountIx? ==>
              !Succeeded(rt, start, events, j)
    ensures Succeeded(rt, start, events, i) && Succeeded(rt, start, events, j) && IsAssertion(events[i])
            && IsAssertion(events[j])
            && AssertedCounter(rt, events[i].env.transaction) != 0
            && AssertedCounter(rt, events[j].env.transaction) != 0 ==>
              AssertedCounter(rt, events[i].env.transaction) < AssertedCounter(rt, events[j].env.transaction)
  {
    var a, b := After(rt, start, events, i), After(rt, start, events, j);
    RunKeeps(rt, start, events, i, j);
    RunKeeps(rt, start, events, i + 1, j);
    StepKeeps(rt, a, events[i]);
    StepKeeps(rt, b, events[j]);
  }

  // ----- session keys over runs

  /** The session key an event stores in this state, and when. */
  function Stored(rt: Runtime, a: AccountState, e: Event): Option<(RawSessionKey, i64)> {
    if Process(rt, a, e).Ok? && StoredBy(e).Some? then Some((StoredBy(e).value, e.env.now)) else None
  }

  function Latest<T>(before: Option<T>, now: Option<T>): Option<T> {
    if now.Some? then now else before
  }

  /** The session key stored last by the first n events, and when. */
  function LastStored(rt: Runtime, start: AccountState, events: seq<Event>, n: nat): Option<(RawSessionKey, i64)>
    requires n <= |events|
  {
    if n == 0 then None
    else Latest(LastStored(rt, start, events, n - 1), Stored(rt, After(rt, start, events, n - 1), events[n - 1]))
  }

  ghost predicate Positive(events: seq<Event>) {
    forall i :: 0 <= i < |events| ==> events[i].env.now > 0
  }

  /** Clock readings are positive and never fall. */
  ghost predicate Clocked(events: seq<Event>) {
    Positive(events)
    && forall i, j :: 0 <= i <= j < |events| ==> events[i].env.now <= events[j].env.now
  }

  /** The key in force is the one stored last, within the limit of its storing. */
  predicate Holds(session: RawSessionKey, last: Option<(RawSessionKey, i64)>) {
    match last
    case None => session == BLANK.sessionKey
    case Some(stored) => session == stored.0 && stored.0.expiration <= stored.1 + SESSION_KEY_EXPIRATION_LIMIT
  }

  lemma HoldsStored(key: RawSessionKey, now: i64)
    requires now > 0 && key.expiration <= LatestExpiration(now)
    ensures Holds(key, Some((key, now)))
  {
    LatestIsSum(now);
  }

  lemma HoldsStep(rt: Runtime, a: AccountState, e: Event, last: Option<(RawSessionKey, i64)>)
    requires Holds(SessionOf(a), last) && e.env.now > 0
    ensures Holds(SessionOf(Step(rt, a, e)), Latest(last, Stored(rt, a, e)))
  {
    StepStores(rt, a, e);
    if Stored(rt, a, e).Some? { HoldsStored(StoredBy(e).value, e.env.now); }
  }

  /** An account that starts without data holds exactly the key stored last. */
  lemma {:induction false} HoldsLastStored(rt: Runtime, start: AccountState, events: seq<Event>, n: nat)
    requires n <= |events| && start.data.None? && Positive(events)
    ensures Holds(SessionOf(After(rt, start, events, n)), LastStored(rt, start, events, n))
  {
    if n > 0 {
      var e := events[n - 1];
      HoldsLastStored(rt, start, events, n - 1);
      HoldsStep(rt, After(rt, start, events, n - 1), e, LastStored(rt, start, events, n - 1));
    }
  }

  /** It was stored at an earlier clock reading. */
  lemma {:induction false} StoredEarlier(rt: Runtime, start: AccountState, events: seq<Event>, n: nat, j: nat)
    requires n <= j < |events| && Clocked(events)
    ensures var last := LastStored(rt, start, events, n); last.Some? ==> last.value.1 <= events[j].env.now
  {
    if n > 0 { StoredEarlier(rt, start, events, n - 1, j); }
  }

  lemma SessionCheck(p: Passkey, signer: AccountInfo, now: i64)
    requires now > 0
    ensures IsValidSessionKey(p, signer, now).Ok? <==>
              signer.isSigner && p.sessionKey.key == signer.key && now <= p.sessionKey.expiration
  {
  }

  /** The session check accepts exactly the key stored last, until it expires. */
  lemma {:induction false} SessionExact(rt: Runtime, start: AccountState, events: seq<Event>, n: nat,
                                        signer: AccountInfo)
    requires n < |events| && start.data.None? && Clocked(events)
    requires After(rt, start, events, n).data.Some?
    ensures var last, now := LastStored(rt, start, events, n), events[n].env.now;
            IsValidSessionKey(After(rt, start, events, n).data.value, signer, now).Ok? <==>
              signer.isSigner && last.Some? && last.value.0.key == signer.key && now <= last.value.0.expiration
  {
    HoldsLastStored(rt, start, events, n);
    SessionCheck(After(rt, start, events, n).data.value, signer, events[n].env.now);
  }

  /** A sessioned execution succeeds only for the key stored last, from its storing until its expiration, which is at
      most the limit later; an account that never stored a key accepts none. */
  lemma {:induction false} SessionLifetime(rt: Runtime, start: AccountState, events: seq<Event>, n: nat)
    requires n < |events| && start.data.None? && Clocked(events)
    requires events[n].kind.SessionedIx? && Succeeded(rt, start, events, n)
    ensures var last, e := LastStored(rt, start, events, n), events[n];
            last.Some? && |e.infos| >= 2 && e.infos[1].isSigner && e.infos[1].key == last.value.0.key
            && last.value.1 <= e.env.now <= last.value.0.expiration <= last.value.1 + SESSION_KEY_EXPIRATION_LIMIT
  {
    var a, e := After(rt, start, events, n), events[n];
    var p := SessionedSucceeds(rt, e.env, e.infos, a, e.data);
    SessionExact(rt, start, events, n, e.infos[1]);
    HoldsLastStored(rt, start, events, n);
    StoredEarlier(rt, start, events, n, n);
  }
}

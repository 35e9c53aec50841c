// Soundness over whole runs: the signing key belongs to the account named, and a message is not replayed.
module RunSoundness {
  import opened Basics
  import opened Nonce
  import opened NonceRuns
  import opened ClientData
  import opened Wire
  import opened Challenges
  import opened Precompile
  import opened Passkey
  import opened Authorisation
  import opened Batch
  import opened Instructions
  import opened Runs
  import opened Soundness
  import Effects

  // ----- the key of an account belongs to its address

  /** Every instruction that names accounts names this one first. */
  ghost predicate Addressed(events: seq<Event>, address: Key) {
    forall i :: 0 <= i < |events| && events[i].infos != [] ==> events[i].infos[0].key == address
  }

  /** Initialised data holds the key the address derives from. */
  predicate AtAddress(rt: Runtime, a: AccountState, address: Key) {
    a.data.Some? ==> PasskeyAddress(rt, a.data.value.publicKey) == address
  }

  lemma InitializeStoresKey(rt: Runtime, a: AccountState, env: Environment, infos: seq<AccountInfo>, data: bytes)
    requires ProcessInitialize(rt, env, infos, a, data).Ok?
    ensures infos != []
    ensures AtAddress(rt, ProcessInitialize(rt, env, infos, a, data).value.account, infos[0].key)
  {
    var fields, after, rp, publicKey, key := InitializeSucceeds(rt, env, infos, a, data);
    VerifiedAdvances(rt, env.transaction, fields, after);
  }

  lemma InitializeStepStores(rt: Runtime, a: AccountState, e: Event)
    requires Process(rt, a, e).Ok? && e.kind.InitializeAccountIx?
    ensures e.infos != [] && AtAddress(rt, Step(rt, a, e), e.infos[0].key)
  {
    InitializeStoresKey(rt, a, e.env, e.infos, e.data);
  }

  lemma KeptStaysAtAddress(rt: Runtime, before: AccountState, after: AccountState, address: Key)
    requires AtAddress(rt, before, address) && Kept(before, after) && (before.data.Some? || after == before)
    ensures AtAddress(rt, after, address)
  {
  }

  lemma StepKeepsAddress(rt: Runtime, a: AccountState, e: Event, address: Key)
    requires AtAddress(rt, a, address) && (e.infos != [] ==> e.infos[0].key == address)
    ensures AtAddress(rt, Step(rt, a, e), address)
  {
    StepKeeps(rt, a, e);
    StartsByInitializing(rt, a, e);
    if Process(rt, a, e).Ok? && e.kind.InitializeAccountIx? {
      InitializeStepStores(rt, a, e);
    } else {
      KeptStaysAtAddress(rt, a, Step(rt, a, e), address);
    }
  }

  /** Over every run of an account that starts without data, the stored key is the one its address derives from. */
  lemma {:induction false} StoredAtItsAddress(rt: Runtime, start: AccountState, events: seq<Event>, address: Key,
                                              n: nat)
    requires n <= |events| && start.data.None? && Addressed(events, address)
    ensures AtAddress(rt, After(rt, start, events, n), address)
  {
    if n > 0 {
      StoredAtItsAddress(rt, start, events, address, n - 1);
      StepKeepsAddress(rt, After(rt, start, events, n - 1), events[n - 1], address);
    }
  }

  /** What a call may do with the account itself: never write it when it signs. */
  ghost predicate SparesAccount(call: Call, address: Key) {
    forall k :: 0 <= k < |call.metas| && call.metas[k].key == address ==> !call.metas[k].isWritable
  }

  lemma ConservesSpares(infos: seq<AccountInfo>, address: Key, call: Call)
    requires Conserves(infos, address, ExternalAccountItself, call)
    ensures SparesAccount(call, address)
  {
  }

  lemma AllSpare(infos: seq<AccountInfo>, address: Key, calls: seq<Call>)
    requires forall i :: 0 <= i < |calls| ==> Conserves(infos, address, ExternalAccountItself, calls[i])
    ensures forall i :: 0 <= i < |calls| ==> SparesAccount(calls[i], address)
  {
    forall i | 0 <= i < |calls| ensures SparesAccount(calls[i], address) {
      ConservesSpares(infos, address, calls[i]);
    }
  }

  /** The calls event n makes. */
  function CallsOf(rt: Runtime, start: AccountState, events: seq<Event>, n: nat): seq<Call>
    requires n < |events| && Succeeded(rt, start, events, n)
  {
    Process(rt, After(rt, start, events, n), events[n]).value.calls
  }

  /** A passkey-signed execution in a run is signed for, with the accounts and instructions of its own arguments, by the
      key of the account it names; when its scheme byte makes that account the signer of the calls, it is the executing
      key and no call may write it. */
  lemma ExecutedByItsAccount(rt: Runtime, start: AccountState, events: seq<Event>, n: nat, args: ExecuteArgs)
    returns (l: Loaded, height: u64)
    requires n < |events| && start.data.None? && events[n].kind.ExecuteIx? && Succeeded(rt, start, events, n)
    requires events[n].infos != [] ==> Addressed(events, events[n].infos[0].key)
    requires Descending(events[n].env.slots) && Whole(TakeExecuteArgs(events[n].data)) == Some(args)
    ensures var e := events[n];
            |e.infos| >= 4 && PasskeyAddress(rt, l.passkey.publicKey) == e.infos[0].key
            && After(rt, start, events, n) == AccountState(rt.programId, Some(l.passkey))
            && LoadExecute(rt, e.env, e.infos, After(rt, start, events, n), args) == Ok(l)
            && SignedFor(rt, e.env.transaction, l.passkey, l.params, Execute(l.nonce, e.infos[4..], args.instructions))
            && NonceHolds(e.env, l.nonce, e.infos[3], height)
    ensures args.signerExecutionScheme == 1 ==>
              l.executionKey == events[n].infos[0].key
              && forall i :: 0 <= i < |CallsOf(rt, start, events, n)| ==>
                   SparesAccount(CallsOf(rt, start, events, n)[i], events[n].infos[0].key)
  {
    var a, e := After(rt, start, events, n), events[n];
    var parsed;
    parsed, l, height := ExecuteSound(rt, e.env, e.infos, a, e.data);
    StoredAtItsAddress(rt, start, events, e.infos[0].key, n);
    if args.signerExecutionScheme == 1 {
      AllSpare(e.infos[4..], l.executionKey, ProcessExecute(rt, e.env, e.infos, a, e.data).value.calls);
    }
  }

  lemma SessionedCalls(rt: Runtime, env: Environment, infos: seq<AccountInfo>, a: AccountState, p: Passkey,
                       args: SessionedArgs)
    requires |infos| >= 2 && ActSessioned(rt, env, infos, a, p, args).Ok? && args.signerExecutionScheme == 1
    ensures forall i :: 0 <= i < |ActSessioned(rt, env, infos, a, p, args).value.calls| ==>
              SparesAccount(ActSessioned(rt, env, infos, a, p, args).value.calls[i], PasskeyAddress(rt, p.publicKey))
  {
    var key, calls := PasskeyAddress(rt, p.publicKey), ActSessioned(rt, env, infos, a, p, args).value.calls;
    PrivilegeConservation(ContextOf(rt, env, infos[2..], key, ExternalAccountItself), ExternalAccountItself,
                          args.instructions, calls);
    AllSpare(infos[2..], key, calls);
  }

  lemma SessionedProcessCalls(rt: Runtime, env: Environment, infos: seq<AccountInfo>, a: AccountState, data: bytes,
                              args: SessionedArgs)
    returns (p: Passkey)
    requires ProcessSessioned(rt, env, infos, a, data).Ok? && Whole(TakeSessionedArgs(data)) == Some(args)
    requires args.signerExecutionScheme == 1
    ensures a == AccountState(rt.programId, Some(p)) && |infos| >= 2
    ensures forall i :: 0 <= i < |ProcessSessioned(rt, env, infos, a, data).value.calls| ==>
              SparesAccount(ProcessSessioned(rt, env, infos, a, data).value.calls[i], PasskeyAddress(rt, p.publicKey))
  {
    p := LoadData(rt, a).value;
    LoadedIsOwned(rt, a);
    SessionedCalls(rt, env, infos, a, p, args);
  }

  /** Nor may a sessioned execution write the account when its scheme byte makes that account the signer. */
  lemma SessionedSparesAccount(rt: Runtime, start: AccountState, events: seq<Event>, n: nat, args: SessionedArgs)
    requires n < |events| && start.data.None? && events[n].kind.SessionedIx? && Succeeded(rt, start, events, n)
    requires events[n].infos != [] ==> Addressed(events, events[n].infos[0].key)
    requires Whole(TakeSessionedArgs(events[n].data)) == Some(args) && args.signerExecutionScheme == 1
    ensures |events[n].infos| >= 2
    ensures forall i :: 0 <= i < |CallsOf(rt, start, events, n)| ==>
              SparesAccount(CallsOf(rt, start, events, n)[i], events[n].infos[0].key)
  {
    var a, e := After(rt, start, events, n), events[n];
    var p := SessionedProcessCalls(rt, e.env, e.infos, a, e.data, args);
    StoredAtItsAddress(rt, start, events, e.infos[0].key, n);
  }

  // ----- what a successful event carried

  /** The action an event asks for, with the data and the parameters its message is checked against. */
  datatype Own = Own(action: Action, passkey: Passkey, params: Params)

  function OwnExecute(rt: Runtime, env: Environment, infos: seq<AccountInfo>, a: AccountState, data: bytes):
    Option<Own> {
    match Whole(TakeExecuteArgs(data))
    case None => None
    case Some(args) =>
      match LoadExecute(rt, env, infos, a, args)
      case Err(_) => None
      case Ok(l) => Some(Own(Execute(l.nonce, infos[4..], args.instructions), l.passkey, l.params))
  }

  function OwnRefresh(rt: Runtime, env: Environment, infos: seq<AccountInfo>, a: AccountState, data: bytes):
    Option<Own> {
    match Whole(TakeRefreshArgs(data))
    case None => None
    case Some(args) =>
      match LoadRefresh(rt, env, infos, a, args)
      case Err(_) => None
      case Ok((p, nonce, params)) => Some(Own(Refresh(nonce, args.sessionKey), p, params))
  }

  /** An initialisation is checked against the fields it is about to store. */
  function OwnInitialize(rt: Runtime, env: Environment, infos: seq<AccountInfo>, a: AccountState, data: bytes):
    Option<Own> {
    match Whole(TakeInitializeArgs(data))
    case None => None
    case Some(args) =>
      match LoadInitialize(rt, env, infos, a, args)
      case Err(_) => None
      case Ok((nonce, i)) =>
        var key := AsRaw(args.sessionKey);
        match InitializeAccount(BLANK, NewRelyingParty(rt, i.rpId), i.publicKey, key, env.now)
        case Err(_) => None
        case Ok(fields) => Some(Own(Initialize(nonce, key), fields, i.params))
  }

  function OwnOf(rt: Runtime, a: AccountState, e: Event): Option<Own> {
    match e.kind
    case ExecuteIx => OwnExecute(rt, e.env, e.infos, a, e.data)
    case RefreshIx => OwnRefresh(rt, e.env, e.infos, a, e.data)
    case InitializeAccountIx => OwnInitialize(rt, e.env, e.infos, a, e.data)
    case SessionedIx => None
  }

  /** The account whose signature the nonce of an event is bound to. */
  function NonceSigner(e: Event): AccountInfo
    requires |e.infos| >= 4
  {
    if e.kind.InitializeAccountIx? then e.infos[1] else e.infos[3]
  }

  /** The action is the event's own: its arguments and accounts, under a nonce of its own signer. */
  predicate Carries(e: Event, action: Action) {
    match e.kind
    case ExecuteIx =>
      |e.infos| >= 4 && Whole(TakeExecuteArgs(e.data)).Some? && action.Execute?
      && action.accounts == e.infos[4..] && action.instructions == Whole(TakeExecuteArgs(e.data)).value.instructions
    case RefreshIx =>
      |e.infos| >= 4 && Whole(TakeRefreshArgs(e.data)).Some? && action.Refresh?
      && action.key == Whole(TakeRefreshArgs(e.data)).value.sessionKey
    case InitializeAccountIx =>
      |e.infos| >= 5 && Whole(TakeInitializeArgs(e.data)).Some? && action.Initialize?
      && action.optionalKey == AsRaw(Whole(TakeInitializeArgs(e.data)).value.sessionKey)
    case SessionedIx => false
  }

  /** The event succeeded on a message signed for its action, under a recent nonce that its own signer signed for. */
  ghost predicate Honours(rt: Runtime, e: Event, own: Own, height: u64) {
    Carries(e, own.action) && SignedFor(rt, e.env.transaction, own.passkey, own.params, own.action)
    && NonceHolds(e.env, own.action.nonce, NonceSigner(e), height)
  }

  /** The data checked is what the account held, or what it was given but for the counter. */
  predicate IsDataOf(p: Passkey, before: AccountState, after: AccountState) {
    if before.data.Some? then before.data == Some(p)
    else after.data.Some? && p == after.data.value.(counter := 0)
  }

  lemma InstructionsCounted(b: bytes)
    ensures Whole(TakeExecuteArgs(b)).Some? ==> |Whole(TakeExecuteArgs(b)).value.instructions| <= 0xff
  {
  }

  lemma ExecuteHonours(rt: Runtime, a: AccountState, e: Event) returns (height: u64)
    requires e.kind.ExecuteIx? && Descending(e.env.slots) && ProcessExecute(rt, e.env, e.infos, a, e.data).Ok?
    ensures var own := OwnExecute(rt, e.env, e.infos, a, e.data);
            own.Some? && Honours(rt, e, own.value, height) && a.data == Some(own.value.passkey)
  {
    var args, l, h := ExecuteSound(rt, e.env, e.infos, a, e.data);
    height := h;
  }

  lemma RefreshHonours(rt: Runtime, a: AccountState, e: Event) returns (height: u64)
    requires e.kind.RefreshIx? && Descending(e.env.slots) && ProcessRefresh(rt, e.env, e.infos, a, e.data).Ok?
    ensures var own := OwnRefresh(rt, e.env, e.infos, a, e.data);
            own.Some? && Honours(rt, e, own.value, height) && a.data == Some(own.value.passkey)
  {
    var args, p, nonce, params, h := RefreshSound(rt, e.env, e.infos, a, e.data);
    height := h;
  }

  lemma OwnInitializeIs(rt: Runtime, env: Environment, infos: seq<AccountInfo>, a: AccountState, data: bytes,
                        args: InitializeArgs, nonce: NonceData, i: InitializationData, fields: Passkey)
    requires Whole(TakeInitializeArgs(data)) == Some(args) && (args.sessionKey.Some? ==> IsRaw(args.sessionKey.value))
    requires 0 <= args.slothash < 0x1_0000 && LoadInitialize(rt, env, infos, a, args) == Ok((nonce, i))
    requires |i.rpId| <= 32 && |i.publicKey| == 33
    requires InitializeAccount(BLANK, NewRelyingParty(rt, i.rpId), i.publicKey, AsRaw(args.sessionKey), env.now)
             == Ok(fields)
    ensures OwnInitialize(rt, env, infos, a, data)
            == Some(Own(Initialize(nonce, AsRaw(args.sessionKey)), fields, i.params))
    ensures a.data.None?
  {
  }

  lemma InitializeHonours(rt: Runtime, a: AccountState, e: Event) returns (height: u64)
    requires e.kind.InitializeAccountIx? && Descending(e.env.slots)
             && ProcessInitialize(rt, e.env, e.infos, a, e.data).Ok?
    ensures var own := OwnInitialize(rt, e.env, e.infos, a, e.data);
            own.Some? && Honours(rt, e, own.value, height) && a.data.None?
            && IsDataOf(own.value.passkey, a, ProcessInitialize(rt, e.env, e.infos, a, e.data).value.account)
  {
    var args, i, nonce, fields, h := InitializeSound(rt, e.env, e.infos, a, e.data);
    height := h;
    OwnInitializeIs(rt, e.env, e.infos, a, e.data, args, nonce, i, fields);
  }

  /** Every successful assertion of a run honours the action of its own arguments and accounts, under the nonce it
      loaded and the account's own data. */
  lemma SuccessHonours(rt: Runtime, a: AccountState, e: Event) returns (height: u64)
    requires Descending(e.env.slots) && IsAssertion(e) && Process(rt, a, e).Ok?
    ensures OwnOf(rt, a, e).Some? && Honours(rt, e, OwnOf(rt, a, e).value, height)
    ensures IsDataOf(OwnOf(rt, a, e).value.passkey, a, Step(rt, a, e))
  {
    match e.kind
    case ExecuteIx => height := ExecuteHonours(rt, a, e);
    case RefreshIx => height := RefreshHonours(rt, a, e);
    case InitializeAccountIx => height := InitializeHonours(rt, a, e);
  }

  // ----- slot lists of one history

  /** A longer history ends in the shorter one. */
  lemma {:induction false} HistoryEndsIn(list: seq<SlotHash>, produced: seq<SlotHash>, m: nat)
    requires m <= |produced|
    ensures exists newer :: History(list, produced) == newer + History(list, produced[..m])
  {
    if m == |produced| {
      assert produced[..m] == produced;
      assert History(list, produced) == [] + History(list, produced[..m]);
    } else {
      var init, last := produced[..|produced| - 1], produced[|produced| - 1];
      HistoryEndsIn(list, init, m);
      assert init[..m] == produced[..m];
      var newer :| History(list, init) == newer + History(list, produced[..m]);
      PrependNewest(last, newer, History(list, produced[..m]));
      assert History(list, produced) == [last] + newer + History(list, produced[..m]);
    }
  }

  lemma PrependNewest(last: SlotHash, newer: seq<SlotHash>, older: seq<SlotHash>)
    ensures [last] + (newer + older) == [last] + newer + older
  {
  }

  lemma EndDescends(newer: seq<SlotHash>, older: seq<SlotHash>)
    requires Descending(newer + older)
    ensures Descending(older)
  {
    forall i, j | 0 <= i < j < |older| ensures older[i].height > older[j].height {
      assert (newer + older)[|newer| + i] == older[i] && (newer + older)[|newer| + j] == older[j];
    }
  }

  /** At every moment the list is descending, and all its entries are of the one history. */
  lemma {:induction false} ListOfHistory(list: seq<SlotHash>, produced: seq<SlotHash>, m: nat)
    requires |list| <= CAPACITY && Newer(list, produced) && m <= |produced|
    ensures Descending(Produce(list, produced[..m]))
    ensures forall e :: e in Produce(list, produced[..m]) ==> e in History(list, produced)
  {
    var older := History(list, produced[..m]);
    HistoryEndsIn(list, produced, m);
    var newer :| History(list, produced) == newer + older;
    EndDescends(newer, older);
    RunKeepsDescending(list, produced[..m]);
    ProduceIsCappedHistory(list, produced[..m]);
    assert forall e :: e in older ==> e in newer + older;
  }

  lemma HashNamesSlot(history: seq<SlotHash>, e: SlotHash, f: SlotHash)
    requires DistinctHashes(history) && e in history && f in history && e.hash == f.hash
    ensures e == f
  {
  }

  lemma {:induction false} ListsNameSlots(list: seq<SlotHash>, produced: seq<SlotHash>, m: nat, n: nat)
    requires |list| <= CAPACITY && Newer(list, produced) && m <= |produced| && n <= |produced|
    requires DistinctHashes(History(list, produced))
    ensures HashesNameSlots(Produce(list, produced[..m]), Produce(list, produced[..n]))
  {
    var x, y := Produce(list, produced[..m]), Produce(list, produced[..n]);
    ListOfHistory(list, produced, m);
    ListOfHistory(list, produced, n);
    forall e, f | e in x && f in y && e.hash == f.hash ensures e.height == f.height {
      HashNamesSlot(History(list, produced), e, f);
    }
  }

  // ----- no replay over runs

  /** The events see the slot list as it grows: event i after `seen[i]` slots were produced. */
  ghost predicate Sees(events: seq<Event>, list: seq<SlotHash>, produced: seq<SlotHash>, seen: seq<nat>) {
    |seen| == |events|
    && forall i :: 0 <= i < |events| ==>
         seen[i] <= |produced| && events[i].env.slots == Produce(list, produced[..seen[i]])
  }

  lemma {:induction false} SeenLists(events: seq<Event>, list: seq<SlotHash>, produced: seq<SlotHash>, seen: seq<nat>,
                                     i: nat, j: nat)
    requires i < |events| && j < |events| && Sees(events, list, produced, seen)
    requires |list| <= CAPACITY && Newer(list, produced) && DistinctHashes(History(list, produced))
    ensures Descending(events[i].env.slots) && Descending(events[j].env.slots)
    ensures HashesNameSlots(events[i].env.slots, events[j].env.slots)
  {
    ListOfHistory(list, produced, seen[i]);
    ListOfHistory(list, produced, seen[j]);
    ListsNameSlots(list, produced, seen[i], seen[j]);
  }

  /** At most as many execution accounts as a count byte holds. */
  predicate CountsAccounts(e: Event) { |e.infos| <= 4 + 0xff }

  lemma CarriedFits(e: Event, action: Action)
    requires Carries(e, action) && CountsAccounts(e) && Preimage(action).Some?
    ensures Fits(action)
  {
    InstructionsCounted(e.data);
  }

  lemma HonouredTwice(rt: Runtime, e: Event, f: Event, x: Own, y: Own, h: u64, h': u64)
    requires Honours(rt, e, x, h) && Honours(rt, f, y, h')
    requires CountsAccounts(e) && CountsAccounts(f) && x.passkey.rp == y.passkey.rp
    requires SameMessage(rt, e.env.transaction, f.env.transaction) && HashesNameSlots(e.env.slots, f.env.slots)
    ensures Preimage(x.action).Some? && Preimage(y.action).Some?
    ensures (x.action == y.action && Near(e.env.slots, f.env.slots))
            || Collides(rt, Preimage(x.action).value, Preimage(y.action).value)
            || Collides(rt, OwnDocument(rt, x), OwnDocument(rt, y))
  {
    var a, b := x.action, y.action;
    SignedForSerialises(rt, e.env.transaction, x.passkey, x.params, a);
    SignedForSerialises(rt, f.env.transaction, y.passkey, y.params, b);
    CarriedFits(e, a);
    CarriedFits(f, b);
    ReplayOnlyInWindow(rt, e.env, f.env, x.passkey, y.passkey, x.params, y.params, a, b, NonceSigner(e),
                       NonceSigner(f), h, h');
  }

  /** The document whose hash the message must end in. */
  function OwnDocument(rt: Runtime, own: Own): bytes
    requires Preimage(own.action).Some?
  {
    Document(own.passkey, own.params, Challenge(rt, own.action))
  }

  predicate HasParty(a: AccountState, rp: RelyingParty) { a.data.Some? && a.data.value.rp == rp }

  /** What event i of a run asks for, in the state it meets. */
  function OwnAt(rt: Runtime, start: AccountState, events: seq<Event>, i: nat): Option<Own>
    requires i < |events|
  {
    OwnOf(rt, After(rt, start, events, i), events[i])
  }

  lemma DataHasParty(p: Passkey, before: AccountState, after: AccountState)
    requires IsDataOf(p, before, after) && Kept(before, after)
    ensures HasParty(after, p.rp)
  {
  }

  lemma EventHonours(rt: Runtime, start: AccountState, events: seq<Event>, i: nat) returns (own: Own, height: u64)
    requires i < |events| && Succeeded(rt, start, events, i) && IsAssertion(events[i])
             && Descending(events[i].env.slots)
    ensures OwnAt(rt, start, events, i) == Some(own) && Honours(rt, events[i], own, height)
    ensures HasParty(After(rt, start, events, i + 1), own.passkey.rp)
  {
    var before := After(rt, start, events, i);
    height := SuccessHonours(rt, before, events[i]);
    own := OwnOf(rt, before, events[i]).value;
    StepKeeps(rt, before, events[i]);
    DataHasParty(own.passkey, before, Step(rt, before, events[i]));
  }

  lemma {:induction false} KeepsParty(rt: Runtime, start: AccountState, events: seq<Event>, i: nat, j: nat,
                                      rp: RelyingParty)
    requires i <= j <= |events| && HasParty(After(rt, start, events, i), rp)
    ensures HasParty(After(rt, start, events, j), rp)
  {
    RunKeeps(rt, start, events, i, j);
  }

  lemma LaterHonours(rt: Runtime, start: AccountState, events: seq<Event>, i: nat, j: nat, rp: RelyingParty)
    returns (own: Own, height: u64)
    requires i <= j < |events| && HasParty(After(rt, start, events, i), rp)
    requires Succeeded(rt, start, events, j) && IsAssertion(events[j]) && Descending(events[j].env.slots)
    ensures OwnAt(rt, start, events, j) == Some(own) && Honours(rt, events[j], own, height) && own.passkey.rp == rp
  {
    own, height := EventHonours(rt, start, events, j);
    KeepsParty(rt, start, events, i, j + 1, rp);
  }

  lemma PairHonours(rt: Runtime, start: AccountState, events: seq<Event>, i: nat, j: nat)
    returns (x: Own, y: Own, h: u64, h': u64)
    requires i < j < |events| && Succeeded(rt, start, events, i) && Succeeded(rt, start, events, j)
    requires IsAssertion(events[i]) && IsAssertion(events[j])
    requires Descending(events[i].env.slots) && Descending(events[j].env.slots)
    ensures OwnAt(rt, start, events, i) == Some(x) && Honours(rt, events[i], x, h)
    ensures OwnAt(rt, start, events, j) == Some(y) && Honours(rt, events[j], y, h')
    ensures x.passkey.rp == y.passkey.rp
  {
    x, h := EventHonours(rt, start, events, i);
    y, h' := LaterHonours(rt, start, events, i + 1, j, x.passkey.rp);
  }

  /** Over every run, two successes on one signed message asked for the same action, kind and all, with newest slots at
      most 149 apart; or the two payloads they hashed, or the two documents, collide under the hash. */
  lemma {:induction false} NoReplay(rt: Runtime, start: AccountState, events: seq<Event>, list: seq<SlotHash>,
                                    produced: seq<SlotHash>, seen: seq<nat>, i: nat, j: nat)
    requires i < j < |events| && Sees(events, list, produced, seen)
    requires |list| <= CAPACITY && Newer(list, produced) && DistinctHashes(History(list, produced))
    requires Succeeded(rt, start, events, i) && Succeeded(rt, start, events, j) && IsAssertion(events[i])
             && IsAssertion(events[j])
    requires CountsAccounts(events[i]) && CountsAccounts(events[j])
             && SameMessage(rt, events[i].env.transaction, events[j].env.transaction)
    ensures OwnAt(rt, start, events, i).Some? && OwnAt(rt, start, events, j).Some?
    ensures var x, y := OwnAt(rt, start, events, i).value, OwnAt(rt, start, events, j).value;
            && Carries(events[i], x.action) && Carries(events[j], y.action)
            && Preimage(x.action).Some? && Preimage(y.action).Some?
            && ((x.action == y.action && Near(events[i].env.slots, events[j].env.slots))
                || Collides(rt, Preimage(x.action).value, Preimage(y.action).value)
                || Collides(rt, OwnDocument(rt, x), OwnDocument(rt, y)))
  {
    SeenLists(events, list, produced, seen, i, j);
    var x, y, h, h' := PairHonours(rt, start, events, i, j);
    HonouredTwice(rt, events[i], events[j], x, y, h, h');
  }

  /** Whatever the hash, an authenticator that counts is never replayed: a message accepted twice in a run has counter
      zero, and at most one of the two successes is an initialisation. */
  lemma OnlyCounterlessRepeats(rt: Runtime, start: AccountState, events: seq<Event>, i: nat, j: nat)
    requires i < j < |events| && Succeeded(rt, start, events, i) && Succeeded(rt, start, events, j)
    requires IsAssertion(events[i]) && IsAssertion(events[j])
    requires SameMessage(rt, events[i].env.transaction, events[j].env.transaction)
    ensures AssertedCounter(rt, events[i].env.transaction) == 0
    ensures !(events[i].kind.InitializeAccountIx? && events[j].kind.InitializeAccountIx?)
  {
    CarriedIsRead(rt, events[i].env.transaction);
    CarriedIsRead(rt, events[j].env.transaction);
    RunInvariant(rt, start, events, i, j);
  }

  // ----- the counter, as a number

  lemma CarriedCounter(rt: Runtime, transaction: seq<TxInstruction>, publicKey: bytes, h: Hash, flags: byte, v: u32,
                       extra: bytes, d: Hash)
    requires Carried(rt, transaction, publicKey, Effects.AuthData(h, flags, v, extra) + d)
    ensures AssertedCounter(rt, transaction) == v
  {
    var authData := Effects.AuthData(h, flags, v, extra);
    CarriedExact(rt, transaction, publicKey, authData + d);
    Effects.AuthDataParts(h, flags, v, extra);
    MessageSplits(authData, d);
    CounterReads(h, flags, v, extra);
  }

  /** A successful assertion whose message has counter v, in four big-endian bytes after hash and flags, leaves v stored
      and had less before; a zero counter leaves the stored one. */
  lemma AssertionMovesCounter(rt: Runtime, a: AccountState, e: Event, publicKey: bytes, h: Hash, flags: byte, v: u32,
                              extra: bytes, d: Hash)
    requires IsAssertion(e) && Process(rt, a, e).Ok?
    requires Carried(rt, e.env.transaction, publicKey, Effects.AuthData(h, flags, v, extra) + d)
    ensures CounterOf(Step(rt, a, e)) == if v == 0 then CounterOf(a) else v
    ensures v != 0 ==> CounterOf(a) < v
  {
    CarriedCounter(rt, e.env.transaction, publicKey, h, flags, v, extra, d);
    StepKeeps(rt, a, e);
  }

  // ----- no way back in

  /** No call of any successful instruction enters this program. */
  lemma NoCallEnters(rt: Runtime, a: AccountState, e: Event)
    requires Process(rt, a, e).Ok?
    ensures forall k :: 0 <= k < |Process(rt, a, e).value.calls| ==>
              Process(rt, a, e).value.calls[k].programId != rt.programId
  {
    match e.kind
    case ExecuteIx =>
      var args, p := Effects.ExecutedCalls(rt, e.env, e.infos, a, e.data, Process(rt, a, e).value);
    case SessionedIx =>
      var args, p := Effects.SessionedSound(rt, e.env, e.infos, a, e.data, Process(rt, a, e).value);
    case RefreshIx =>
    case InitializeAccountIx =>
  }

  /** Every successful assertion had its one signature checked by the precompile, first in the transaction, under the
      key the account then holds. */
  lemma AssertionChecked(rt: Runtime, a: AccountState, e: Event) returns (message: bytes)
    requires Descending(e.env.slots) && IsAssertion(e) && Process(rt, a, e).Ok?
    ensures var t := e.env.transaction;
            |t| > 0 && t[0].programId == rt.precompileId && |t[0].data| > 0 && t[0].data[0] == 1
    ensures Step(rt, a, e).data.Some?
            && Carried(rt, e.env.transaction, Step(rt, a, e).data.value.publicKey, message)
  {
    var height := SuccessHonours(rt, a, e);
    var own := OwnOf(rt, a, e).value;
    message :| CarriesMessage(rt, e.env.transaction, message);
    assert AssertsAction(rt, e.env.transaction, own.passkey, own.params, own.action, message);
    StepKeeps(rt, a, e);
  }
}

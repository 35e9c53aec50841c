// The slot list over time: newer slots are pushed, and the list keeps its newest 512 entries.
module NonceRuns {
  import opened Basics
  import opened Nonce

  const CAPACITY: nat := 512

  function Cap(list: seq<SlotHash>): (r: seq<SlotHash>)
    ensures |r| <= CAPACITY
  {
    if |list| <= CAPACITY then list else list[..CAPACITY]
  }

  /** One produced slot. */
  function Push(list: seq<SlotHash>, e: SlotHash): seq<SlotHash> {
    Cap([e] + list)
  }

  /** The list after a run of produced slots, oldest first. */
  function Produce(list: seq<SlotHash>, events: seq<SlotHash>): seq<SlotHash> {
    if events == [] then list
    else Push(Produce(list, events[..|events| - 1]), events[|events| - 1])
  }

  /** Every slot ever listed, newest first. */
  function History(list: seq<SlotHash>, events: seq<SlotHash>): seq<SlotHash> {
    if events == [] then list
    else [events[|events| - 1]] + History(list, events[..|events| - 1])
  }

  /** Each produced slot is newer than everything before it. */
  ghost predicate Newer(list: seq<SlotHash>, events: seq<SlotHash>) {
    Descending(History(list, events))
  }

  ghost predicate DistinctHashes(list: seq<SlotHash>) {
    forall i, j :: 0 <= i < j < |list| ==> list[i].hash != list[j].hash
  }

  lemma {:induction false} ProduceIsCappedHistory(list: seq<SlotHash>, events: seq<SlotHash>)
    requires |list| <= 512
    ensures Produce(list, events)
            == if |History(list, events)| <= 512 then History(list, events) else History(list, events)[..512]
  {
    if events != [] {
      ProduceIsCappedHistory(list, events[..|events| - 1]);
    }
  }

  lemma {:induction false} HistoryAt(list: seq<SlotHash>, events: seq<SlotHash>, i: nat)
    requires i < |events|
    ensures |History(list, events)| == |list| + |events|
    ensures History(list, events)[|events| - 1 - i] == events[i]
  {
    var init := events[..|events| - 1];
    if init == [] {
    } else if i < |init| {
      HistoryAt(list, init, i);
      assert init[i] == events[i];
    } else {
      HistoryAt(list, init, 0);
    }
  }

  /** A state after a run from a list that fits keeps the invariant of the lookup. */
  lemma {:induction false} RunKeepsDescending(list: seq<SlotHash>, events: seq<SlotHash>)
    requires |list| <= CAPACITY && Newer(list, events)
    ensures Descending(Produce(list, events)) && |Produce(list, events)| <= CAPACITY
  {
    ProduceIsCappedHistory(list, events);
  }

  lemma {:induction false} NewestIsLast(list: seq<SlotHash>, events: seq<SlotHash>)
    requires |list| <= CAPACITY && events != []
    ensures Produce(list, events) != [] && Produce(list, events)[0] == events[|events| - 1]
  {
  }

  /** A slot at most 149 behind the newest one is still listed. */
  lemma {:induction false} StillListed(list: seq<SlotHash>, events: seq<SlotHash>, i: nat)
    requires |list| <= CAPACITY && Newer(list, events) && i < |events|
    requires events[|events| - 1].height <= events[i].height + 149
    ensures |events| - 1 - i < |Produce(list, events)|
    ensures Produce(list, events)[|events| - 1 - i] == events[i]
    ensures Produce(list, events)[0].height <= events[i].height + 149
  {
    NewestIsLast(list, events);
    var history, k := History(list, events), |events| - 1 - i;
    ProduceIsCappedHistory(list, events);
    HistoryAt(list, events, i);
    HistoryAt(list, events, |events| - 1);
    OlderByIndex(history, k);
  }

  /**
   * The window over runs: the hash of a produced slot is obtainable, by its own truncated value,
   * as long as the newest slot is at most 149 ahead.
   */
  lemma {:induction false} ObtainableInWindow(list: seq<SlotHash>, events: seq<SlotHash>, i: nat, stackHeight: nat,
                                              signer: AccountInfo)
    requires |list| <= CAPACITY && Newer(list, events) && i < |events|
    requires events[|events| - 1].height <= events[i].height + 149
    requires stackHeight <= 1 && signer.isSigner
    ensures ValidateNonce(Produce(list, events), Truncate(events[i].height), stackHeight, signer)
            == Ok(NonceData(signer.key, events[i].hash))
  {
    StillListed(list, events, i);
    RunKeepsDescending(list, events);
    EntryValidates(Produce(list, events), |events| - 1 - i, events[i], stackHeight, signer);
  }

  lemma EntryValidates(state: seq<SlotHash>, k: nat, e: SlotHash, stackHeight: nat, signer: AccountInfo)
    requires Descending(state) && k < |state| && state[k] == e
    requires state[0].height <= e.height + 149 && stackHeight <= 1 && signer.isSigner
    ensures ValidateNonce(state, Truncate(e.height), stackHeight, signer) == Ok(NonceData(signer.key, e.hash))
  {
    WindowValidates(state, k, Truncate(e.height), stackHeight, signer);
  }

  lemma HeightsTellHashes(list: seq<SlotHash>, j: nat, k: nat)
    requires DistinctHashes(list) && j < |list| && k < |list| && list[j].height != list[k].height
    ensures list[j].hash != list[k].hash
  {
  }

  /**
   * Afterwards no truncated value obtains it any more, even when a later slot shares its value
   * mod 1000, provided slot hashes are distinct.
   */
  lemma {:induction false} GoneAfterWindow(list: seq<SlotHash>, events: seq<SlotHash>, i: nat, slot: u16,
                                           stackHeight: nat, signer: AccountInfo)
    requires |list| <= CAPACITY && Newer(list, events) && i < |events|
    requires DistinctHashes(History(list, events))
    requires events[|events| - 1].height > events[i].height + 149
    ensures ValidateNonce(Produce(list, events), slot, stackHeight, signer)
            != Ok(NonceData(signer.key, events[i].hash))
  {
    var state := Produce(list, events);
    RunKeepsDescending(list, events);
    NewestIsLast(list, events);
    if ValidateNonce(state, slot, stackHeight, signer).Ok? {
      var j := ValidatedInWindow(state, slot, stackHeight, signer);
      assert state[j].height > events[i].height;
      AcceptedDiffers(list, events, i, j);
    }
  }

  lemma {:induction false} AcceptedDiffers(list: seq<SlotHash>, events: seq<SlotHash>, i: nat, j: nat)
    requires |list| <= CAPACITY && i < |events| && j < |Produce(list, events)|
    requires DistinctHashes(History(list, events))
    requires Produce(list, events)[j].height > events[i].height
    ensures Produce(list, events)[j].hash != events[i].hash
  {
    ProduceIsCappedHistory(list, events);
    HistoryAt(list, events, i);
    HeightsTellHashes(History(list, events), j, |events| - 1 - i);
  }
}

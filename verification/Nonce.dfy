// The slot-hash nonce: a slot named by its value mod 1000 and looked up in a descending list.
module Nonce {
  import opened Basics

  datatype SlotHash = SlotHash(height: u64, hash: Hash)

  /** What an instruction sees of an account it was passed. */
  datatype AccountInfo = AccountInfo(key: Key, isSigner: bool, isWritable: bool)

  datatype NonceData = NonceData(signerKey: Key, slothash: Hash)

  // ----- truncated slots

  function Truncate(slot: u64): u16 {
    slot % 1000
  }

  function CheckedSub(a: u16, b: u16): Result<u16> {
    if b <= a then Ok(a - b) else Err(InvalidTruncatedSlot)
  }

  function CheckedAdd(a: u16, b: u16): Result<u16> {
    if a + b < 0x1_0000 then Ok(a + b) else Err(InvalidTruncatedSlot)
  }

  /** How many slots `other` lies behind `current`, both truncated. */
  function IndexDifference(current: u16, other: u16): Result<u16> {
    if current >= other then CheckedSub(current, other)
    else
      var wraparound :- CheckedSub(1000, other);
      CheckedAdd(current, wraparound)
  }

  // ----- lookup

  function GetSlotHash(list: seq<SlotHash>, index: nat): Result<SlotHash> {
    if index >= |list| then Err(InvalidSlothashIndex) else Ok(list[index])
  }

  /** The backward scan below `searchEnd`, as a function. */
  function ReverseSearch(list: seq<SlotHash>, slot: u64, searchEnd: nat): Result<SlotHash> {
    if searchEnd == 0 then Err(InvalidSlothashIndex)
    else
      var candidate :- GetSlotHash(list, searchEnd - 1);
      if candidate.height == slot then Ok(candidate) else ReverseSearch(list, slot, searchEnd - 1)
  }

  method ReverseLinearSearchSlotHash(list: seq<SlotHash>, slot: u64, searchEnd: nat) returns (r: Result<SlotHash>)
    ensures r == ReverseSearch(list, slot, searchEnd)
  {
    var index := searchEnd;
    while index > 0
      invariant 0 <= index <= searchEnd
      invariant ReverseSearch(list, slot, searchEnd) == ReverseSearch(list, slot, index)
    {
      index := index - 1;
      var candidate := GetSlotHash(list, index);
      if candidate.Err? { return candidate; }
      if candidate.value.height == slot { return candidate; }
    }
    return Err(InvalidSlothashIndex);
  }

  function FindSlotHash(list: seq<SlotHash>, slot: u64, index: nat): Result<SlotHash> {
    if index < |list| && list[index].height == slot then Ok(list[index])
    else
      var searchEnd := if index < |list| then index else |list|;
      if searchEnd == 0 then Err(InvalidSlothashIndex) else ReverseSearch(list, slot, searchEnd)
  }

  // ----- the reference: a scan of the whole list

  function FullScan(list: seq<SlotHash>, slot: u64): Result<SlotHash> {
    if list == [] then Err(InvalidSlothashIndex)
    else if list[0].height == slot then Ok(list[0])
    else FullScan(list[1..], slot)
  }

  /** Strictly descending heights. */
  ghost predicate Descending(list: seq<SlotHash>) {
    forall i, j :: 0 <= i < j < |list| ==> list[i].height > list[j].height
  }

  lemma {:induction false} FullScanFinds(list: seq<SlotHash>, slot: u64)
    requires Descending(list)
    ensures forall i :: 0 <= i < |list| && list[i].height == slot ==> FullScan(list, slot) == Ok(list[i])
    ensures (forall i :: 0 <= i < |list| ==> list[i].height != slot)
            ==> FullScan(list, slot) == Err(InvalidSlothashIndex)
  {
    if list != [] && list[0].height != slot {
      FullScanFinds(list[1..], slot);
      forall i | 0 <= i < |list| && list[i].height == slot ensures FullScan(list, slot) == Ok(list[i]) {
        assert list[1..][i - 1] == list[i];
      }
    }
  }

  lemma {:induction false} ReverseSearchFinds(list: seq<SlotHash>, slot: u64, searchEnd: nat)
    requires Descending(list) && searchEnd <= |list|
    ensures forall i :: 0 <= i < searchEnd && list[i].height == slot ==>
              ReverseSearch(list, slot, searchEnd) == Ok(list[i])
    ensures (forall i :: 0 <= i < searchEnd ==> list[i].height != slot)
            ==> ReverseSearch(list, slot, searchEnd) == Err(InvalidSlothashIndex)
  {
    if searchEnd > 0 { ReverseSearchFinds(list, slot, searchEnd - 1); }
  }

  /** An entry at index i is at least i slots older than the newest one. */
  lemma {:induction false} OlderByIndex(list: seq<SlotHash>, i: nat)
    requires Descending(list) && i < |list|
    ensures list[i].height + i <= list[0].height
  {
    if i > 0 { OlderByIndex(list, i - 1); }
  }

  /** For a slot d below the newest, the bounded lookup at index d is a full scan. */
  lemma FindIsFullScan(list: seq<SlotHash>, d: nat)
    requires Descending(list) && list != [] && d <= list[0].height
    ensures FindSlotHash(list, list[0].height - d, d) == FullScan(list, list[0].height - d)
  {
    var slot := list[0].height - d;
    FullScanFinds(list, slot);
    ReverseSearchFinds(list, slot, if d < |list| then d else |list|);
    forall i | 0 <= i < |list| && list[i].height == slot ensures i <= d { OlderByIndex(list, i); }
    if i :| 0 <= i < |list| && list[i].height == slot {
      assert i <= d;
    }
  }

  // ----- validation

  function ValidateNonce(list: seq<SlotHash>, slot: u16, stackHeight: nat, signer: AccountInfo): Result<NonceData> {
    if slot >= 1000 then Err(InvalidTruncatedSlot)
    else if stackHeight > 1 then Err(CPINotAllowed)
    else if !signer.isSigner then Err(MissingNonceSignature)
    else
      var newest :- GetSlotHash(list, 0);
      var difference :- IndexDifference(Truncate(newest.height), slot);
      if difference >= 150 then Err(ExpiredSlothash)
      else if newest.height < difference then Err(InvalidTruncatedSlot)
      else
        var found :- FindSlotHash(list, newest.height - difference, difference);
        Ok(NonceData(signer.key, found.hash))
  }

  /** A listed slot with the given truncated value, at most 149 slots old. */
  predicate InWindow(list: seq<SlotHash>, i: int, slot: u16) {
    0 <= i < |list| && list[i].height % 1000 == slot && list[0].height - 149 <= list[i].height
  }

  /** Modular arithmetic resolves a truncated slot to the one candidate within 1000 slots. */
  lemma DifferenceResolves(newest: u64, slot: u16, candidate: int)
    requires slot < 1000
    ensures IndexDifference(Truncate(newest), slot).Ok?
    ensures 0 <= IndexDifference(Truncate(newest), slot).value < 1000
    ensures newest - 1000 < candidate <= newest ==>
              (candidate % 1000 == slot <==> candidate == newest - IndexDifference(Truncate(newest), slot).value)
  {
  }

  /** At most one listed slot is in the window. */
  lemma WindowUnique(list: seq<SlotHash>, i: int, j: int, slot: u16)
    requires Descending(list) && slot < 1000 && InWindow(list, i, slot) && InWindow(list, j, slot)
    ensures i == j
  {
    OlderByIndex(list, i); OlderByIndex(list, j);
    DifferenceResolves(list[0].height, slot, list[i].height);
    DifferenceResolves(list[0].height, slot, list[j].height);
  }

  /** A slot in the window validates, and the hash returned is its own. */
  lemma WindowValidates(list: seq<SlotHash>, i: int, slot: u16, stackHeight: nat, signer: AccountInfo)
    requires Descending(list) && slot < 1000 && stackHeight <= 1 && signer.isSigner
    requires InWindow(list, i, slot)
    ensures ValidateNonce(list, slot, stackHeight, signer) == Ok(NonceData(signer.key, list[i].hash))
  {
    OlderByIndex(list, i);
    DifferenceResolves(list[0].height, slot, list[i].height);
    var d := IndexDifference(Truncate(list[0].height), slot).value;
    FindIsFullScan(list, d);
    FullScanFinds(list, list[0].height - d);
  }

  /** Whatever validates is in the window. */
  lemma ValidatedInWindow(list: seq<SlotHash>, slot: u16, stackHeight: nat, signer: AccountInfo) returns (i: nat)
    requires Descending(list) && ValidateNonce(list, slot, stackHeight, signer).Ok?
    ensures slot < 1000 && stackHeight <= 1 && signer.isSigner && InWindow(list, i, slot)
    ensures ValidateNonce(list, slot, stackHeight, signer) == Ok(NonceData(signer.key, list[i].hash))
  {
    DifferenceResolves(list[0].height, slot, list[0].height);
    var d := IndexDifference(Truncate(list[0].height), slot).value;
    var candidate := list[0].height - d;
    DifferenceResolves(list[0].height, slot, candidate);
    FindIsFullScan(list, d);
    FullScanFinds(list, candidate);
    i :| 0 <= i < |list| && list[i].height == candidate;
  }

  /** Acceptance is exact, and the accepted slot is unique. */
  lemma NonceAcceptance(list: seq<SlotHash>, slot: u16, stackHeight: nat, signer: AccountInfo)
    requires Descending(list)
    ensures ValidateNonce(list, slot, stackHeight, signer).Ok? <==>
              slot < 1000 && stackHeight <= 1 && signer.isSigner && exists i :: InWindow(list, i, slot)
    ensures forall i :: InWindow(list, i, slot) && ValidateNonce(list, slot, stackHeight, signer).Ok?
              ==> ValidateNonce(list, slot, stackHeight, signer).value == NonceData(signer.key, list[i].hash)
    ensures forall i, j :: slot < 1000 && InWindow(list, i, slot) && InWindow(list, j, slot) ==> i == j
  {
    forall i, j | slot < 1000 && InWindow(list, i, slot) && InWindow(list, j, slot) ensures i == j {
      WindowUnique(list, i, j, slot);
    }
    if slot < 1000 && stackHeight <= 1 && signer.isSigner {
      forall i | InWindow(list, i, slot)
        ensures ValidateNonce(list, slot, stackHeight, signer) == Ok(NonceData(signer.key, list[i].hash))
      {
        WindowValidates(list, i, slot, stackHeight, signer);
      }
    }
    if ValidateNonce(list, slot, stackHeight, signer).Ok? {
      var i := ValidatedInWindow(list, slot, stackHeight, signer);
    }
  }
}

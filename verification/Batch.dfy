// The batch executor: building each call from reused buffers, and what the calls may do.
module Batch {
  import opened Basics
  import opened Nonce
  import opened Wire

  /** Which address signs for the calls: the derived execution account, or the passkey account itself. */
  datatype ExecutionScheme = ExecutionAccount | ExternalAccountItself

  /** An account as a call lists it. */
  datatype Meta = Meta(key: Key, isWritable: bool, isSigner: bool)

  /** One cross-program call; `signedFor` is the address whose seeds sign it. */
  datatype Call = Call(programId: Key, metas: seq<Meta>, data: bytes, infos: seq<AccountInfo>, signedFor: Key)

  const MAX_INFOS: nat := 64

  // ----- metas

  function MetaOf(info: AccountInfo, executionKey: Key, scheme: ExecutionScheme): Meta {
    if info.key == executionKey then
      match scheme
      case ExternalAccountItself => Meta(info.key, false, true)
      case ExecutionAccount => Meta(info.key, info.isWritable, true)
    else Meta(info.key, info.isWritable, info.isSigner)
  }

  /** An account keeps its key; it signs if it did or is the executing one, and stays writable unless it is the passkey
      account that signs for itself. */
  ghost predicate IsMeta(m: Meta, info: AccountInfo, executionKey: Key, scheme: ExecutionScheme) {
    && m.key == info.key
    && (m.isSigner <==> info.isSigner || info.key == executionKey)
    && (m.isWritable <==> info.isWritable && !(info.key == executionKey && scheme.ExternalAccountItself?))
  }

  lemma MetaExact(info: AccountInfo, executionKey: Key, scheme: ExecutionScheme)
    ensures IsMeta(MetaOf(info, executionKey, scheme), info, executionKey, scheme)
    ensures forall m :: IsMeta(m, info, executionKey, scheme) ==> m == MetaOf(info, executionKey, scheme)
  {
  }

  function Metas(infos: seq<AccountInfo>, executionKey: Key, scheme: ExecutionScheme): (m: seq<Meta>)
    ensures |m| == |infos|
  {
    seq(|infos|, i requires 0 <= i < |infos| => MetaOf(infos[i], executionKey, scheme))
  }

  // ----- one call

  /** The distinct values of a list, in order of first occurrence. */
  function Distinct(s: bytes): bytes {
    if s == [] then []
    else
      var init, last := s[..|s| - 1], s[|s| - 1];
      if last in init then Distinct(init) else Distinct(init) + [last]
  }

  /** Every account index is within the accounts passed and the 64 flags, and the program is among the accounts. */
  predicate IndicesFit(i: CompiledInstruction, count: nat) {
    InBounds(i.accountsIndices, count) && i.programIdIndex < count
  }

  predicate InBounds(indices: bytes, count: nat) {
    forall k :: 0 <= k < |indices| ==> indices[k] < count && indices[k] < MAX_INFOS
  }

  function Pick<T>(items: seq<T>, indices: bytes): (r: seq<T>)
    requires forall k :: 0 <= k < |indices| ==> indices[k] < |items|
    ensures |r| == |indices|
  {
    seq(|indices|, k requires 0 <= k < |indices| => items[indices[k]])
  }

  lemma {:induction false} DistinctFrom(s: bytes)
    ensures forall x :: x in Distinct(s) <==> x in s
  {
    if s != [] {
      var init, last := s[..|s| - 1], s[|s| - 1];
      DistinctFrom(init);
      assert s == init + [last];
    }
  }

  lemma {:induction false} DistinctFits(s: bytes, count: nat)
    requires forall k :: 0 <= k < |s| ==> s[k] < count
    ensures forall k :: 0 <= k < |Distinct(s)| ==> Distinct(s)[k] < count
  {
    DistinctFrom(s);
    forall k | 0 <= k < |Distinct(s)| ensures Distinct(s)[k] < count {
      assert Distinct(s)[k] in Distinct(s);
    }
  }

  /** The call an instruction stands for. */
  function CallOf(i: CompiledInstruction, infos: seq<AccountInfo>, metas: seq<Meta>, executionKey: Key): Call
    requires |metas| == |infos| && IndicesFit(i, |infos|)
  {
    DistinctFits(i.accountsIndices, |infos|);
    Call(infos[i.programIdIndex].key, Pick(metas, i.accountsIndices), i.data,
         Pick(infos, Distinct(i.accountsIndices)), executionKey)
  }

  /** A call built from one instruction, field by field. */
  ghost predicate IsBuilt(call: Call, i: CompiledInstruction, infos: seq<AccountInfo>, metas: seq<Meta>,
                          executionKey: Key)
  {
    && i.programIdIndex < |infos| && |metas| == |infos|
    && (forall j :: 0 <= j < |i.accountsIndices| ==> i.accountsIndices[j] < |infos| && i.accountsIndices[j] < 64)
    && call.programId == infos[i.programIdIndex].key && call.data == i.data && call.signedFor == executionKey
    && |call.metas| == |i.accountsIndices|
    && (forall j :: 0 <= j < |call.metas| ==> call.metas[j] == metas[i.accountsIndices[j]])
    && Lists(call.infos, infos, Distinct(i.accountsIndices))
  }

  /** The accounts at these indices, one after the other. */
  ghost predicate Lists(listed: seq<AccountInfo>, infos: seq<AccountInfo>, indices: bytes) {
    |listed| == |indices| && forall j :: 0 <= j < |listed| ==> indices[j] < |infos| && listed[j] == infos[indices[j]]
  }

  lemma CallExact(call: Call, i: CompiledInstruction, infos: seq<AccountInfo>, metas: seq<Meta>, executionKey: Key)
    requires |metas| == |infos|
    ensures IsBuilt(call, i, infos, metas, executionKey) <==>
              IndicesFit(i, |infos|) && call == CallOf(i, infos, metas, executionKey)
  {
    if IndicesFit(i, |infos|) {
      DistinctFits(i.accountsIndices, |infos|);
      if IsBuilt(call, i, infos, metas, executionKey) {
        assert call.metas == Pick(metas, i.accountsIndices);
        assert call.infos == Pick(infos, Distinct(i.accountsIndices));
      }
    }
  }

  // ----- the whole batch

  /** What the executor works with: the accounts passed, their metas, the program's own address, and the runtime's
      verdict on a call given those made before it. */
  datatype Context = Context(infos: seq<AccountInfo>, metas: seq<Meta>, executionKey: Key, programId: Key,
                             invoke: (seq<Call>, Call) -> bool)

  predicate ValidContext(c: Context) { |c.metas| == |c.infos| }

  function RunBatch(c: Context, instructions: seq<CompiledInstruction>, done: seq<Call>): Result<seq<Call>>
    requires ValidContext(c)
    decreases |instructions|
  {
    if instructions == [] then Ok(done)
    else if !IndicesFit(instructions[0], |c.infos|) then Err(Panicked)
    else
      var call := CallOf(instructions[0], c.infos, c.metas, c.executionKey);
      if call.programId == c.programId then Err(Panicked)
      else if !c.invoke(done, call) then Err(InvokedProgramFailed)
      else RunBatch(c, instructions[1..], done + [call])
  }

  // ----- the loops over reused buffers

  /** The flags mark exactly the indices seen. */
  ghost predicate Marks(seen: seq<bool>, indices: bytes) {
    |seen| == MAX_INFOS && forall k :: 0 <= k < MAX_INFOS ==> (seen[k] <==> k in indices)
  }

  lemma MarksStep(seen: seq<bool>, indices: bytes, index: byte)
    requires Marks(seen, indices) && index < MAX_INFOS
    ensures Marks(seen[index := true], indices + [index])
    ensures seen[index] <==> index in indices
    ensures seen[index] ==> seen[index := true] == seen
  {
  }

  lemma {:induction false} DistinctStep(s: bytes, x: byte)
    ensures Distinct(s + [x]) == if x in s then Distinct(s) else Distinct(s) + [x]
  {
    assert (s + [x])[..|s|] == s;
  }

  lemma PickStep<T>(items: seq<T>, indices: bytes, index: byte)
    requires (forall k :: 0 <= k < |indices| ==> indices[k] < |items|) && index < |items|
    ensures forall k :: 0 <= k < |indices + [index]| ==> (indices + [index])[k] < |items|
    ensures Pick(items, indices + [index]) == Pick(items, indices) + [items[index]]
  {
  }

  /** What one more index does to the flags and to both vectors. */
  lemma {:induction false} CollectStep(seen: seq<bool>, metas: seq<Meta>, indices: bytes, index: byte)
    requires Marks(seen, indices) && InBounds(indices, |metas|) && index < |metas| && index < MAX_INFOS
    ensures Marks(if seen[index] then seen else seen[index := true], indices + [index])
    ensures InBounds(indices + [index], |metas|)
    ensures Pick(metas, indices + [index]) == Pick(metas, indices) + [metas[index]]
    ensures Distinct(indices + [index]) == if seen[index] then Distinct(indices) else Distinct(indices) + [index]
  {
    MarksStep(seen, indices, index);
    PickStep(metas, indices, index);
    DistinctStep(indices, index);
  }

  /** The two vectors both loops fill and clear again. */
  class Buffers {
    var metas: seq<Meta>
    var indices: bytes

    predicate Clear()
      reads this
    {
      metas == [] && indices == []
    }

    constructor ()
      ensures Clear()
    {
      metas, indices := [], [];
    }

    method Reset()
      modifies this
      ensures Clear()
    {
      metas, indices := [], [];
    }

    /** One more index, within both bounds, after those before it. */
    method Note(index: byte, accountMetas: seq<Meta>, seen: array<bool>, ghost before: bytes)
      requires InBounds(before, |accountMetas|) && index < |accountMetas| && index < MAX_INFOS
      requires Marks(seen[..], before)
      requires metas == Pick(accountMetas, before) && indices == Distinct(before)
      modifies this, seen
      ensures InBounds(before + [index], |accountMetas|) && Marks(seen[..], before + [index])
      ensures metas == Pick(accountMetas, before + [index]) && indices == Distinct(before + [index])
    {
      CollectStep(seen[..], accountMetas, before, index);
      metas := metas + [accountMetas[index]];
      if !seen[index] {
        seen[index] := true;
        indices := indices + [index];
      }
    }

    /** One pass over the account indices, flagging those seen; false is an index out of bounds. */
    method Collect(accountsIndices: bytes, accountMetas: seq<Meta>) returns (ok: bool)
      requires Clear()
      modifies this
      ensures ok <==> InBounds(accountsIndices, |accountMetas|)
      ensures ok ==> metas == Pick(accountMetas, accountsIndices) && indices == Distinct(accountsIndices)
    {
      var seen := new bool[MAX_INFOS](_ => false);
      var i := 0;
      while i < |accountsIndices|
        invariant 0 <= i <= |accountsIndices|
        invariant InBounds(accountsIndices[..i], |accountMetas|)
        invariant Marks(seen[..], accountsIndices[..i])
        invariant metas == Pick(accountMetas, accountsIndices[..i])
        invariant indices == Distinct(accountsIndices[..i])
      {
        var index := accountsIndices[i];
        assert accountsIndices[..i + 1] == accountsIndices[..i] + [index];
        if index >= |accountMetas| || index >= MAX_INFOS { return false; }
        Note(index, accountMetas, seen, accountsIndices[..i]);
        i := i + 1;
      }
      assert accountsIndices[..i] == accountsIndices;
      ok := true;
    }
  }

  /** The loop of the passkey-signed execution. */
  method InvokeAll(c: Context, instructions: seq<CompiledInstruction>) returns (r: Result<seq<Call>>)
    requires ValidContext(c)
    ensures r == RunBatch(c, instructions, [])
  {
    var buffers := new Buffers();
    var calls: seq<Call> := [];
    var i := 0;
    while i < |instructions|
      invariant 0 <= i <= |instructions|
      invariant buffers.Clear()
      invariant RunBatch(c, instructions, []) == RunBatch(c, instructions[i..], calls)
    {
      var instruction := instructions[i];
      assert instructions[i..][1..] == instructions[i + 1..];
      var ok := buffers.Collect(instruction.accountsIndices, c.metas);
      if !ok { return Err(Panicked); }
      DistinctFits(instruction.accountsIndices, |c.infos|);
      var filtered := Pick(c.infos, buffers.indices);
      if instruction.programIdIndex >= |c.infos| { return Err(Panicked); }
      var call := Call(c.infos[instruction.programIdIndex].key, buffers.metas, instruction.data, filtered,
                       c.executionKey);
      if call.programId == c.programId { return Err(Panicked); }
      if !c.invoke(calls, call) { return Err(InvokedProgramFailed); }
      calls := calls + [call];
      buffers.Reset();
      i := i + 1;
    }
    r := Ok(calls);
  }

  /** The loop of the sessioned execution: its own copy, with the same meaning. */
  method InvokeAllSessioned(c: Context, instructions: seq<CompiledInstruction>) returns (r: Result<seq<Call>>)
    requires ValidContext(c)
    ensures r == RunBatch(c, instructions, [])
  {
    var buffers := new Buffers();
    var calls: seq<Call> := [];
    for i := 0 to |instructions|
      invariant buffers.Clear()
      invariant RunBatch(c, instructions, []) == RunBatch(c, instructions[i..], calls)
    {
      var instruction := instructions[i];
      assert instructions[i..][1..] == instructions[i + 1..];
      var ok := buffers.Collect(instruction.accountsIndices, c.metas);
      if !ok { return Err(Panicked); }
      DistinctFits(instruction.accountsIndices, |c.infos|);
      var filtered := Pick(c.infos, buffers.indices);
      if instruction.programIdIndex >= |c.infos| { return Err(Panicked); }
      var programId := c.infos[instruction.programIdIndex].key;
      if programId == c.programId { return Err(Panicked); }
      var call := Call(programId, buffers.metas, instruction.data, filtered, c.executionKey);
      if !c.invoke(calls, call) { return Err(InvokedProgramFailed); }
      calls := calls + [call];
      buffers.Reset();
    }
    r := Ok(calls);
  }

  // ----- a batch is its instructions, one call each

  /** Call number i is what instruction i stands for, avoids this program, and was let through by the runtime. */
  ghost predicate Made(c: Context, i: CompiledInstruction, before: seq<Call>, call: Call)
    requires ValidContext(c)
  {
    IsBuilt(call, i, c.infos, c.metas, c.executionKey)
    && call.programId != c.programId && c.invoke(before, call)
  }

  ghost predicate MadeFrom(c: Context, instructions: seq<CompiledInstruction>, done: seq<Call>, calls: seq<Call>)
    requires ValidContext(c)
  {
    |calls| == |done| + |instructions| && calls[..|done|] == done
    && forall i :: 0 <= i < |instructions| ==> Made(c, instructions[i], calls[..|done| + i], calls[|done| + i])
  }

  lemma {:induction false} BatchFrom(c: Context, instructions: seq<CompiledInstruction>, done: seq<Call>,
                                     calls: seq<Call>)
    requires ValidContext(c)
    ensures RunBatch(c, instructions, done) == Ok(calls) <==> MadeFrom(c, instructions, done, calls)
    decreases |instructions|
  {
    if instructions == [] {
      assert calls[..|calls|] == calls;
    } else {
      var i := instructions[0];
      if MadeFrom(c, instructions, done, calls) { FirstMade(c, instructions, done, calls); }
      if IndicesFit(i, |c.infos|) {
        var call := CallOf(i, c.infos, c.metas, c.executionKey);
        CallExact(call, i, c.infos, c.metas, c.executionKey);
        BatchFrom(c, instructions[1..], done + [call], calls);
        OneMore(c, instructions, done, call, calls);
      }
    }
  }

  lemma FirstMade(c: Context, instructions: seq<CompiledInstruction>, done: seq<Call>, calls: seq<Call>)
    requires ValidContext(c) && instructions != [] && MadeFrom(c, instructions, done, calls)
    ensures Made(c, instructions[0], done, calls[|done|]) && IndicesFit(instructions[0], |c.infos|)
    ensures calls[|done|] == CallOf(instructions[0], c.infos, c.metas, c.executionKey)
  {
    assert Made(c, instructions[0], calls[..|done| + 0], calls[|done| + 0]);
    CallExact(calls[|done|], instructions[0], c.infos, c.metas, c.executionKey);
  }

  lemma OneMore(c: Context, instructions: seq<CompiledInstruction>, done: seq<Call>, call: Call, calls: seq<Call>)
    requires ValidContext(c) && instructions != []
    ensures MadeFrom(c, instructions, done, calls) && calls[|done|] == call <==>
              Made(c, instructions[0], done, call) && MadeFrom(c, instructions[1..], done + [call], calls)
  {
    var rest, more := instructions[1..], done + [call];
    if MadeFrom(c, instructions, done, calls) && calls[|done|] == call {
      FirstMade(c, instructions, done, calls);
      assert calls[..|more|] == more;
      forall i | 0 <= i < |rest| ensures Made(c, rest[i], calls[..|more| + i], calls[|more| + i]) {
        assert Made(c, instructions[i + 1], calls[..|done| + (i + 1)], calls[|done| + (i + 1)]);
      }
    }
    if Made(c, instructions[0], done, call) && MadeFrom(c, rest, more, calls) {
      assert calls[..|more|][..|done|] == done;
      assert calls[|done|] == more[|done|];
      forall i | 0 <= i < |instructions| ensures Made(c, instructions[i], calls[..|done| + i], calls[|done| + i]) {
        if i == 0 {
          assert calls[..|done| + i] == done;
        } else {
          assert Made(c, rest[i - 1], calls[..|more| + (i - 1)], calls[|more| + (i - 1)]);
        }
      }
    }
  }

  /** A batch succeeds with these calls if and only if they are its instructions in order, each built from its own
      indices alone, none to this program, and each let through. */
  lemma {:induction false} BatchExact(c: Context, instructions: seq<CompiledInstruction>, calls: seq<Call>)
    requires ValidContext(c)
    ensures RunBatch(c, instructions, []) == Ok(calls) <==>
              |calls| == |instructions|
              && forall i :: 0 <= i < |instructions| ==> Made(c, instructions[i], calls[..i], calls[i])
  {
    var none: seq<Call> := [];
    BatchFrom(c, instructions, none, calls);
    assert |calls| == |instructions| ==> forall i :: 0 <= i < |instructions| ==>
      calls[..|none| + i] == calls[..i] && calls[|none| + i] == calls[i];
  }

  /** The call of one instruction over these accounts, field by field. */
  ghost predicate IsCall(call: Call, i: CompiledInstruction, infos: seq<AccountInfo>, executionKey: Key,
                         scheme: ExecutionScheme)
  {
    && i.programIdIndex < |infos|
    && (forall j :: 0 <= j < |i.accountsIndices| ==> i.accountsIndices[j] < |infos| && i.accountsIndices[j] < 64)
    && call.programId == infos[i.programIdIndex].key && call.data == i.data && call.signedFor == executionKey
    && |call.metas| == |i.accountsIndices|
    && (forall j :: 0 <= j < |call.metas| ==>
          IsMeta(call.metas[j], infos[i.accountsIndices[j]], executionKey, scheme))
    && Lists(call.infos, infos, Distinct(i.accountsIndices))
  }

  lemma BuiltIsCall(call: Call, i: CompiledInstruction, infos: seq<AccountInfo>, executionKey: Key,
                    scheme: ExecutionScheme)
    ensures IsBuilt(call, i, infos, Metas(infos, executionKey, scheme), executionKey) <==>
              IsCall(call, i, infos, executionKey, scheme)
  {
    if i.programIdIndex < |infos| && |call.metas| == |i.accountsIndices|
       && forall j :: 0 <= j < |i.accountsIndices| ==> i.accountsIndices[j] < |infos| {
      forall j | 0 <= j < |call.metas|
        ensures call.metas[j] == Metas(infos, executionKey, scheme)[i.accountsIndices[j]] <==>
                  IsMeta(call.metas[j], infos[i.accountsIndices[j]], executionKey, scheme)
      {
        MetaExact(infos[i.accountsIndices[j]], executionKey, scheme);
      }
    }
  }

  /** The calls a batch makes, each over the accounts alone. */
  ghost predicate MakesCalls(infos: seq<AccountInfo>, executionKey: Key, scheme: ExecutionScheme, programId: Key,
                             invoke: (seq<Call>, Call) -> bool, instructions: seq<CompiledInstruction>,
                             calls: seq<Call>)
  {
    |calls| == |instructions|
    && forall k :: 0 <= k < |calls| ==>
         IsCall(calls[k], instructions[k], infos, executionKey, scheme) && calls[k].programId != programId
         && invoke(calls[..k], calls[k])
  }

  /** A batch succeeds if and only if its calls, field by field, are those of its instructions over the accounts passed,
      none enters this program, and each is let through. */
  lemma {:induction false} BatchMeans(c: Context, scheme: ExecutionScheme, instructions: seq<CompiledInstruction>,
                                      calls: seq<Call>)
    requires c.metas == Metas(c.infos, c.executionKey, scheme)
    ensures RunBatch(c, instructions, []) == Ok(calls) <==>
              MakesCalls(c.infos, c.executionKey, scheme, c.programId, c.invoke, instructions, calls)
  {
    BatchExact(c, instructions, calls);
    if |calls| == |instructions| {
      forall k | 0 <= k < |calls|
        ensures Made(c, instructions[k], calls[..k], calls[k]) <==>
                  IsCall(calls[k], instructions[k], c.infos, c.executionKey, scheme)
                  && calls[k].programId != c.programId && c.invoke(calls[..k], calls[k])
      {
        BuiltIsCall(calls[k], instructions[k], c.infos, c.executionKey, scheme);
      }
    }
  }

  lemma {:induction false} OneCall(c: Context, instructions: seq<CompiledInstruction>, done: seq<Call>, call: Call)
    requires ValidContext(c) && instructions != [] && Made(c, instructions[0], done, call)
    ensures RunBatch(c, instructions, done) == RunBatch(c, instructions[1..], done + [call])
  {
    CallExact(call, instructions[0], c.infos, c.metas, c.executionKey);
  }

  lemma {:induction false} BatchReaches(c: Context, instructions: seq<CompiledInstruction>, calls: seq<Call>, n: nat)
    requires ValidContext(c) && n <= |calls| <= |instructions|
    requires forall k :: 0 <= k < |calls| ==> Made(c, instructions[k], calls[..k], calls[k])
    ensures RunBatch(c, instructions, []) == RunBatch(c, instructions[n..], calls[..n])
  {
    if n == 0 {
      assert instructions[0..] == instructions && calls[..0] == [];
    } else {
      BatchReaches(c, instructions, calls, n - 1);
      OneCall(c, instructions[n - 1..], calls[..n - 1], calls[n - 1]);
      assert instructions[n - 1..][1..] == instructions[n..];
      assert calls[..n - 1] + [calls[n - 1]] == calls[..n];
    }
  }

  /** The first instruction that cannot be called stops the batch: an index out of bounds or a call to this program
      panics, and a call that is not let through fails. */
  lemma {:induction false} BatchStops(c: Context, instructions: seq<CompiledInstruction>, calls: seq<Call>)
    requires ValidContext(c) && |calls| < |instructions|
    requires forall k :: 0 <= k < |calls| ==> Made(c, instructions[k], calls[..k], calls[k])
    ensures var i := instructions[|calls|];
            i.programIdIndex >= |c.infos| || c.infos[i.programIdIndex].key == c.programId
            || (exists j :: 0 <= j < |i.accountsIndices|
                            && (i.accountsIndices[j] >= |c.infos| || i.accountsIndices[j] >= 64)) ==>
              RunBatch(c, instructions, []) == Err(Panicked)
    ensures forall call ::
              IsBuilt(call, instructions[|calls|], c.infos, c.metas, c.executionKey)
              && call.programId != c.programId && !c.invoke(calls, call) ==>
                RunBatch(c, instructions, []) == Err(InvokedProgramFailed)
  {
    BatchReaches(c, instructions, calls, |calls|);
    var i := instructions[|calls|];
    assert instructions[|calls|..][0] == i && calls[..|calls|] == calls;
    forall call | IsBuilt(call, i, c.infos, c.metas, c.executionKey) && call.programId != c.programId
                  && !c.invoke(calls, call)
      ensures RunBatch(c, instructions, []) == Err(InvokedProgramFailed)
    {
      CallExact(call, i, c.infos, c.metas, c.executionKey);
    }
  }

  // ----- the accounts of a call

  /** k is where x first occurs. */
  ghost predicate FirstAt(s: bytes, x: byte, k: int) {
    0 <= k < |s| && s[k] == x && forall j :: 0 <= j < k ==> s[j] != x
  }

  /** The indices of a call's accounts are distinct, are the listed ones, and come in order of first occurrence. */
  lemma {:induction false} DistinctIsFirstOccurrences(s: bytes)
    ensures forall x :: x in Distinct(s) <==> x in s
    ensures forall i, j :: 0 <= i < j < |Distinct(s)| ==> Distinct(s)[i] != Distinct(s)[j]
    ensures forall i, j, k, l ::
              0 <= i < j < |Distinct(s)| && FirstAt(s, Distinct(s)[i], k) && FirstAt(s, Distinct(s)[j], l) ==> k < l
  {
    if s != [] {
      var init, last := s[..|s| - 1], s[|s| - 1];
      DistinctFrom(init);
      DistinctFrom(s);
      DistinctIsFirstOccurrences(init);
      forall i, j, k, l | 0 <= i < j < |Distinct(s)| && FirstAt(s, Distinct(s)[i], k) && FirstAt(s, Distinct(s)[j], l)
        ensures k < l
      {
        var x, y := Distinct(s)[i], Distinct(s)[j];
        FirstInInit(s, x, k);
        FirstInInit(s, y, l);
        assert i < |Distinct(init)|;
        assert x in Distinct(init);
        if j < |Distinct(init)| { assert y in Distinct(init); }
      }
    }
  }

  lemma FirstInInit(s: bytes, x: byte, k: int)
    requires s != [] && FirstAt(s, x, k)
    ensures x in s[..|s| - 1] ==> FirstAt(s[..|s| - 1], x, k)
    ensures x !in s[..|s| - 1] ==> k == |s| - 1
  {
    var init := s[..|s| - 1];
    if x in init {
      var j :| 0 <= j < |init| && init[j] == x;
      assert s[j] == x;
    }
    assert k < |init| ==> init[k] in init;
  }

  // ----- privileges

  /** Whether an account with this key was passed with the privilege. */
  predicate PassedSigning(infos: seq<AccountInfo>, key: Key) {
    exists i :: 0 <= i < |infos| && infos[i].key == key && infos[i].isSigner
  }

  predicate PassedWritable(infos: seq<AccountInfo>, key: Key) {
    exists i :: 0 <= i < |infos| && infos[i].key == key && infos[i].isWritable
  }

  /** A call asks for no privilege beyond those passed, save the execution account's signature. */
  ghost predicate Conserves(infos: seq<AccountInfo>, executionKey: Key, scheme: ExecutionScheme, call: Call) {
    forall k :: 0 <= k < |call.metas| ==>
      var m := call.metas[k];
      && (m.isSigner ==> PassedSigning(infos, m.key) || m.key == executionKey)
      && (m.isWritable ==> PassedWritable(infos, m.key))
      && (m.key == executionKey ==> m.isSigner)
      && (m.key == executionKey && scheme.ExternalAccountItself? ==> !m.isWritable)
  }

  lemma CallConserves(i: CompiledInstruction, infos: seq<AccountInfo>, executionKey: Key, scheme: ExecutionScheme)
    requires IndicesFit(i, |infos|)
    ensures Conserves(infos, executionKey, scheme, CallOf(i, infos, Metas(infos, executionKey, scheme), executionKey))
  {
    var metas := Metas(infos, executionKey, scheme);
    var call := CallOf(i, infos, metas, executionKey);
    forall k | 0 <= k < |call.metas|
      ensures call.metas[k] == MetaOf(infos[i.accountsIndices[k]], executionKey, scheme)
    {
    }
  }

  /** Over a whole successful batch, under either scheme, no call gains a privilege and none enters this program. */
  lemma {:induction false} PrivilegeConservation(c: Context, scheme: ExecutionScheme,
                                                 instructions: seq<CompiledInstruction>, calls: seq<Call>)
    requires c.metas == Metas(c.infos, c.executionKey, scheme)
    requires RunBatch(c, instructions, []) == Ok(calls)
    ensures forall i :: 0 <= i < |calls| ==>
              Conserves(c.infos, c.executionKey, scheme, calls[i]) && calls[i].programId != c.programId
  {
    BatchExact(c, instructions, calls);
    forall i | 0 <= i < |calls|
      ensures Conserves(c.infos, c.executionKey, scheme, calls[i]) && calls[i].programId != c.programId
    {
      assert Made(c, instructions[i], calls[..i], calls[i]);
      CallExact(calls[i], instructions[i], c.infos, c.metas, c.executionKey);
      CallConserves(instructions[i], c.infos, c.executionKey, scheme);
    }
  }
}

// The program's small vectors over a reader and a writer: a length prefix, then the elements.
module SmallVecIo {
  import opened Basics
  import opened Endian
  import opened Wire
  import opened WireExact

  /** A read from `rest` left `after` behind, as the decoder `expected` says; a failed read promises nothing. */
  predicate Reads<T(==)>(r: Option<T>, after: bytes, expected: Option<(T, bytes)>) {
    match expected
    case None => r.None?
    case Some(t) => r == Some(t.0) && after == t.1
  }

  /** Elements already read, put in front of what the decoder still finds. */
  function Prepend<T>(read: seq<T>, more: Option<(seq<T>, bytes)>): Option<(seq<T>, bytes)> {
    match more
    case None => None
    case Some(t) => Some((read + t.0, t.1))
  }

  lemma PrependShift<T>(read: seq<T>, first: T, more: Option<(seq<T>, bytes)>)
    ensures Prepend(read, Prepend([first], more)) == Prepend(read + [first], more)
  {
    if more.Some? { assert read + ([first] + more.value.0) == read + [first] + more.value.0; }
  }

  lemma PrependOne(read: seq<CompiledInstruction>, b: bytes, count: nat, first: CompiledInstruction, rest: bytes)
    requires count > 0 && TakeCompiledInstruction(b) == Some((first, rest))
    ensures Prepend(read, TakeEach(b, count)) == Prepend(read + [first], TakeEach(rest, count - 1))
  {
    assert TakeEach(b, count) == Prepend([first], TakeEach(rest, count - 1));
    PrependShift(read, first, TakeEach(rest, count - 1));
  }

  predicate DecodesTo(b: bytes, count: nat, more: Option<(seq<CompiledInstruction>, bytes)>) {
    more == TakeEach(b, count)
  }

  /** Whatever the remaining elements decode to, the elements read so far in front of it make the whole. */
  ghost predicate Remains(whole: Option<(seq<CompiledInstruction>, bytes)>, read: seq<CompiledInstruction>, b: bytes,
                          count: nat) {
    forall more {:trigger DecodesTo(b, count, more)} :: DecodesTo(b, count, more) ==> whole == Prepend(read, more)
  }

  lemma {:induction false} RemainsAtStart(b: bytes, count: nat)
    ensures Remains(TakeEach(b, count), [], b, count)
  {
    if TakeEach(b, count).Some? { assert [] + TakeEach(b, count).value.0 == TakeEach(b, count).value.0; }
  }

  /** Reading one more element carries the loop on, or ends it when there is none. */
  lemma AfterOneRead(whole: Option<(seq<CompiledInstruction>, bytes)>, read: seq<CompiledInstruction>, b: bytes,
                     count: nat, item: Option<CompiledInstruction>, rest: bytes)
    requires count > 0 && Remains(whole, read, b, count) && Reads(item, rest, TakeCompiledInstruction(b))
    ensures item.None? ==> whole == None
    ensures item.Some? ==> Remains(whole, read + [item.value], rest, count - 1)
  {
    assert DecodesTo(b, count, TakeEach(b, count));
    if item.Some? { PrependOne(read, b, count, item.value, rest); }
  }

  lemma NoneLeft(whole: Option<(seq<CompiledInstruction>, bytes)>, read: seq<CompiledInstruction>, b: bytes, count: nat)
    requires count == 0 && Remains(whole, read, b, count)
    ensures whole == Some((read, b))
  {
    assert DecodesTo(b, count, Some(([], b)));
    assert read + [] == read;
  }

  /** A mutable reader: the bytes not yet read. */
  class Reader {
    var rest: bytes

    constructor (b: bytes)
      ensures rest == b
    {
      rest := b;
    }

    method ReadExact(n: nat) returns (r: Option<bytes>)
      modifies this
      ensures Reads(r, rest, Take(old(rest), n))
    {
      if n > |rest| { return None; }
      r := Some(rest[..n]);
      rest := rest[n..];
    }

    method ReadByte() returns (r: Option<byte>)
      modifies this
      ensures Reads(r, rest, TakeByte(old(rest)))
    {
      if rest == [] { return None; }
      r := Some(rest[0]);
      rest := rest[1..];
    }

    method ReadU16() returns (r: Option<nat>)
      modifies this
      ensures Reads(r, rest, TakeLE(old(rest), 2))
    {
      var b := ReadExact(2);
      r := if b.None? then None else Some(FromLE(b.value));
    }

    /** `SmallVec<u8, u8>`; byte elements are read at once. */
    method ReadSmallVecU8() returns (r: Option<bytes>)
      modifies this
      ensures Reads(r, rest, TakeSmallVecU8(old(rest)))
    {
      var length := ReadByte();
      if length.None? { return None; }
      if length.value == 0 { return Some([]); }
      r := ReadExact(length.value);
    }

    /** `SmallVec<u16, u8>`. */
    method ReadSmallVecU16() returns (r: Option<bytes>)
      modifies this
      ensures Reads(r, rest, TakeSmallVecU16(old(rest)))
    {
      var length := ReadU16();
      if length.None? { return None; }
      if length.value == 0 { return Some([]); }
      r := ReadExact(length.value);
    }

    method ReadCompiledInstruction() returns (r: Option<CompiledInstruction>)
      modifies this
      ensures Reads(r, rest, TakeCompiledInstruction(old(rest)))
    {
      var program := ReadByte();
      if program.None? { return None; }
      var accounts := ReadSmallVecU8();
      if accounts.None? { return None; }
      var data := ReadSmallVecU16();
      if data.None? { return None; }
      r := Some(CompiledInstruction(program.value, accounts.value, data.value));
    }

    /** `SmallVec<u8, CompiledInstruction>`; other elements are pushed one by one. */
    method ReadCompiledInstructions() returns (r: Option<seq<CompiledInstruction>>)
      modifies this
      ensures Reads(r, rest, TakeCompiledInstructions(old(rest)))
    {
      var length := ReadByte();
      if length.None? { return None; }
      RemainsAtStart(rest, length.value);
      r := ReadEach(length.value, TakeEach(rest, length.value));
    }

    /** One element, with `count` of them still to read. */
    method ReadElement(count: nat, ghost whole: Option<(seq<CompiledInstruction>, bytes)>,
                       ghost read: seq<CompiledInstruction>)
      returns (item: Option<CompiledInstruction>)
      requires count > 0 && Remains(whole, read, rest, count)
      modifies this
      ensures item.None? ==> whole == None
      ensures item.Some? ==> Remains(whole, read + [item.value], rest, count - 1)
    {
      ghost var before := rest;
      item := ReadCompiledInstruction();
      AfterOneRead(whole, read, before, count, item, rest);
    }

    /** The pushing loop, for the elements that decode to `whole`. */
    method ReadEach(count: nat, ghost whole: Option<(seq<CompiledInstruction>, bytes)>)
      returns (r: Option<seq<CompiledInstruction>>)
      requires Remains(whole, [], rest, count)
      modifies this
      ensures Reads(r, rest, whole)
    {
      var result: seq<CompiledInstruction> := [];
      var i := 0;
      while i < count
        invariant 0 <= i <= count
        invariant Remains(whole, result, rest, count - i)
      {
        var item := ReadElement(count - i, whole, result);
        if item.None? { return None; }
        result := result + [item.value];
        i := i + 1;
      }
      NoneLeft(whole, result, rest, count - i);
      r := Some(result);
    }
  }

  /** What a serialiser did to a writer: it succeeded exactly when the encoder does, and then appended the encoding. */
  predicate Writes(ok: bool, before: bytes, after: bytes, encoding: Option<bytes>) {
    ok == encoding.Some? && (ok ==> after == before + encoding.value)
  }

  lemma WritesInOrder(before: bytes, a: bytes, b: bytes)
    ensures before + a + b == before + Concat([a, b])
  {
    Concat2(a, b);
  }

  lemma {:induction false} EachAppend(v: seq<CompiledInstruction>, last: CompiledInstruction)
    ensures SerializeEach(v + [last]).Some? <==> SerializeEach(v).Some? && SerializeCompiledInstruction(last).Some?
    ensures SerializeEach(v + [last]).Some? ==>
              SerializeEach(v + [last]).value == SerializeEach(v).value + SerializeCompiledInstruction(last).value
  {
    if v == [] {
      assert [last][1..] == [] && [] + [last] == [last];
      assert SerializeEach([]) == Some([]);
      if SerializeCompiledInstruction(last).Some? { WholeRest(SerializeCompiledInstruction(last).value); }
    } else {
      EachAppend(v[1..], last);
      assert (v + [last])[1..] == v[1..] + [last];
      if SerializeEach(v + [last]).Some? {
        Regroup2(SerializeCompiledInstruction(v[0]).value, SerializeEach(v[1..]).value,
                 SerializeCompiledInstruction(last).value);
      }
    }
  }

  lemma {:induction false} PrefixSerializes(v: seq<CompiledInstruction>, i: nat)
    requires i < |v| && SerializeCompiledInstruction(v[i]).None?
    ensures SerializeEach(v).None?
  {
    if i > 0 { PrefixSerializes(v[1..], i - 1); }
  }

  /** A mutable writer: the bytes written so far. */
  class Writer {
    var written: bytes

    constructor ()
      ensures written == []
    {
      written := [];
    }

    method WriteAll(b: bytes)
      modifies this
      ensures written == old(written) + b
    {
      written := written + b;
    }

    method WriteSmallVecU8(v: bytes) returns (ok: bool)
      modifies this
      ensures Writes(ok, old(written), written, SerializeSmallVecU8(v))
    {
      if |v| > 0xff { return false; }
      WritesInOrder(written, [|v|], v);
      WriteAll([|v|]);
      WriteAll(v);
      ok := true;
    }

    method WriteSmallVecU16(v: bytes) returns (ok: bool)
      modifies this
      ensures Writes(ok, old(written), written, SerializeSmallVecU16(v))
    {
      if |v| > 0xffff { return false; }
      WritesInOrder(written, LE(|v|, 2), v);
      WriteAll(LE(|v|, 2));
      WriteAll(v);
      ok := true;
    }

    method WriteCompiledInstruction(v: CompiledInstruction) returns (ok: bool)
      modifies this
      ensures Writes(ok, old(written), written, SerializeCompiledInstruction(v))
    {
      WriteAll([v.programIdIndex]);
      var accounts := WriteSmallVecU8(v.accountsIndices);
      if !accounts { return false; }
      var data := WriteSmallVecU16(v.data);
      if !data { return false; }
      ghost var a, d := SerializeSmallVecU8(v.accountsIndices).value, SerializeSmallVecU16(v.data).value;
      Concat3([v.programIdIndex], a, d);
      Join3(old(written), [v.programIdIndex], a, d);
      ok := true;
    }

    method WriteCompiledInstructions(v: seq<CompiledInstruction>) returns (ok: bool)
      modifies this
      ensures Writes(ok, old(written), written, SerializeCompiledInstructions(v))
    {
      if |v| > 0xff { return false; }
      WriteAll([|v|]);
      ghost var start := written;
      WholeRest(start);
      var i := 0;
      while i < |v|
        invariant 0 <= i <= |v|
        invariant Writes(true, start, written, SerializeEach(v[..i]))
      {
        ghost var done := SerializeEach(v[..i]).value;
        var item := WriteCompiledInstruction(v[i]);
        if !item { PrefixSerializes(v, i); return false; }
        EachAppend(v[..i], v[i]);
        assert v[..i + 1] == v[..i] + [v[i]];
        Regroup2(start, done, SerializeCompiledInstruction(v[i]).value);
        i := i + 1;
      }
      assert v[..i] == v;
      WritesInOrder(old(written), [|v|], SerializeEach(v).value);
      ok := true;
    }
  }

  lemma Join3(before: bytes, a: bytes, b: bytes, c: bytes)
    ensures before + a + b + c == before + (a + (b + c))
  {
    assert before + a + b + c == (before + a) + (b + c);
  }
}

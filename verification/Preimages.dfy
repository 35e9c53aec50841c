// The byte strings that are hashed into a challenge, as the program and the SDK build them.
module Preimages {
  import opened Basics
  import opened Endian
  import opened Text
  import opened Nonce
  import opened Wire
  import opened WireExact

  predicate IsAscii(s: string) {
    forall i :: 0 <= i < |s| ==> s[i] < 128 as char
  }

  /** A byte string literal. */
  function Ascii(s: string): (b: bytes)
    requires IsAscii(s)
    ensures |b| == |s|
  {
    seq(|s|, i requires 0 <= i < |s| => s[i] as int)
  }

  lemma {:induction false} Utf8OfAscii(s: string)
    requires IsAscii(s)
    ensures Utf8(s) == Ascii(s)
  {
    if s != "" {
      Utf8OfAscii(s[1..]);
      assert Ascii(s) == [s[0] as int] + Ascii(s[1..]);
    }
  }

  const EXECUTE_TAG: string := "execute_instructions"
  const REFRESH_TAG: string := "refresh_session_key"
  const INITIALIZE_TAG: string := "initialize_passkey"

  // ----- the program's payloads

  function Flag(b: bool): byte { if b then 1 else 0 }

  function AccountBytes(a: AccountInfo): (b: bytes)
    ensures |b| == 34
  {
    a.key + [Flag(a.isSigner), Flag(a.isWritable)]
  }

  function AccountsBytes(accounts: seq<AccountInfo>): (b: bytes)
    ensures |b| == 34 * |accounts|
  {
    if accounts == [] then [] else AccountBytes(accounts[0]) + AccountsBytes(accounts[1..])
  }

  /** The part every payload starts with. */
  function NonceBytes(nonce: NonceData): (b: bytes)
    ensures |b| == 64
  {
    nonce.slothash + nonce.signerKey
  }

  /** A length cast to one byte. */
  function LowByte(n: nat): byte { n % 256 }

  function InstructionsPart(instructions: seq<CompiledInstruction>): Option<bytes> {
    var each :- SerializeEach(instructions);
    Some([LowByte(|instructions|)] + each)
  }

  /** `None` is the panic of an instruction too long to serialise. */
  function ExecutePreimage(nonce: NonceData, accounts: seq<AccountInfo>, instructions: seq<CompiledInstruction>):
    Option<bytes> {
    var part :- InstructionsPart(instructions);
    Some(NonceBytes(nonce) + (Ascii(EXECUTE_TAG) + ([LowByte(|accounts|)] + (AccountsBytes(accounts) + part))))
  }

  function SessionKeyBytes(k: RawSessionKey): (b: bytes)
    ensures |b| == 40
  {
    k.key + LE(k.expiration, 8)
  }

  function RefreshPreimage(nonce: NonceData, key: RawSessionKey): bytes {
    NonceBytes(nonce) + (Ascii(REFRESH_TAG) + SessionKeyBytes(key))
  }

  function OptionalKeyBytes(key: Option<RawSessionKey>): bytes {
    match key
    case None => []
    case Some(k) => SessionKeyBytes(k)
  }

  function InitializePreimage(nonce: NonceData, key: Option<RawSessionKey>): bytes {
    NonceBytes(nonce) + (Ascii(INITIALIZE_TAG) + OptionalKeyBytes(key))
  }

  // ----- injectivity

  lemma NonceBytesInjective(n: NonceData, x: bytes, m: NonceData, y: bytes)
    requires NonceBytes(n) + x == NonceBytes(m) + y
    ensures n == m && x == y
  {
    Cut(NonceBytes(n), x, NonceBytes(m), y);
    Cut(n.slothash, n.signerKey, m.slothash, m.signerKey);
  }

  lemma TaggedInjective(n: NonceData, tag: bytes, x: bytes, m: NonceData, y: bytes)
    requires NonceBytes(n) + (tag + x) == NonceBytes(m) + (tag + y)
    ensures n == m && x == y
  {
    NonceBytesInjective(n, tag + x, m, tag + y);
    Cut(tag, x, tag, y);
  }

  lemma ExecuteListsInjective(n: NonceData, x: bytes, m: NonceData, y: bytes)
    requires NonceBytes(n) + (Ascii(EXECUTE_TAG) + x) == NonceBytes(m) + (Ascii(EXECUTE_TAG) + y)
    ensures n == m && x == y
  {
    TaggedInjective(n, Ascii(EXECUTE_TAG), x, m, y);
  }

  lemma AccountBytesInjective(a: AccountInfo, b: AccountInfo)
    requires AccountBytes(a) == AccountBytes(b)
    ensures a == b
  {
    Cut(a.key, [Flag(a.isSigner), Flag(a.isWritable)], b.key, [Flag(b.isSigner), Flag(b.isWritable)]);
    assert [Flag(a.isSigner), Flag(a.isWritable)][0] == Flag(b.isSigner);
    assert [Flag(a.isSigner), Flag(a.isWritable)][1] == Flag(b.isWritable);
  }

  lemma {:induction false} AccountsBytesInjective(a: seq<AccountInfo>, b: seq<AccountInfo>)
    requires |a| == |b| && AccountsBytes(a) == AccountsBytes(b)
    ensures a == b
  {
    if a != [] {
      Cut(AccountBytes(a[0]), AccountsBytes(a[1..]), AccountBytes(b[0]), AccountsBytes(b[1..]));
      AccountBytesInjective(a[0], b[0]);
      AccountsBytesInjective(a[1..], b[1..]);
      assert a == [a[0]] + a[1..] && b == [b[0]] + b[1..];
    }
  }

  lemma {:induction false} AccountListInjective(a: seq<AccountInfo>, x: bytes, b: seq<AccountInfo>, y: bytes)
    requires |a| <= 0xff && |b| <= 0xff
    requires [LowByte(|a|)] + (AccountsBytes(a) + x) == [LowByte(|b|)] + (AccountsBytes(b) + y)
    ensures a == b && x == y
  {
    Cut([LowByte(|a|)], AccountsBytes(a) + x, [LowByte(|b|)], AccountsBytes(b) + y);
    SameLowByte(|a|, |b|);
    Cut(AccountsBytes(a), x, AccountsBytes(b), y);
    AccountsBytesInjective(a, b);
  }

  lemma InstructionsPartInjective(v: seq<CompiledInstruction>, w: seq<CompiledInstruction>)
    requires |v| <= 0xff && |w| <= 0xff
    requires InstructionsPart(v).Some? && InstructionsPart(v) == InstructionsPart(w)
    ensures v == w
  {
    var x, y := SerializeEach(v).value, SerializeEach(w).value;
    Cut([LowByte(|v|)], x, [LowByte(|w|)], y);
    SameLowByte(|v|, |w|);
    WholeRest(x);
    EachExact(v, x, []);
    EachExact(w, x, []);
  }

  lemma SameLowByte(m: nat, n: nat)
    requires m <= 0xff && n <= 0xff && [LowByte(m)] == [LowByte(n)]
    ensures m == n
  {
    assert [LowByte(m)][0] == LowByte(n);
  }

  /** The execute payload determines the nonce, every account key and flag, and every instruction. */
  lemma ExecutePreimageInjective(n: NonceData, a: seq<AccountInfo>, v: seq<CompiledInstruction>,
                                 m: NonceData, b: seq<AccountInfo>, w: seq<CompiledInstruction>)
    requires |a| <= 0xff && |b| <= 0xff && |v| <= 0xff && |w| <= 0xff
    requires ExecutePreimage(n, a, v).Some?
    ensures ExecutePreimage(n, a, v) == ExecutePreimage(m, b, w) <==> n == m && a == b && v == w
  {
    if ExecutePreimage(n, a, v) == ExecutePreimage(m, b, w) {
      var p, q := InstructionsPart(v).value, InstructionsPart(w).value;
      var x, y := [LowByte(|a|)] + (AccountsBytes(a) + p), [LowByte(|b|)] + (AccountsBytes(b) + q);
      ExecuteListsInjective(n, x, m, y);
      AccountListInjective(a, p, b, q);
      InstructionsPartInjective(v, w);
    }
  }

  lemma SessionKeyBytesInjective(k: RawSessionKey, l: RawSessionKey)
    requires SessionKeyBytes(k) == SessionKeyBytes(l)
    ensures k == l
  {
    Cut(k.key, LE(k.expiration, 8), l.key, LE(l.expiration, 8));
    Widths();
    ReadsBackLE(k.expiration, 8);
    ReadsBackLE(l.expiration, 8);
  }

  lemma RefreshPreimageInjective(n: NonceData, k: RawSessionKey, m: NonceData, l: RawSessionKey)
    ensures RefreshPreimage(n, k) == RefreshPreimage(m, l) <==> n == m && k == l
  {
    if RefreshPreimage(n, k) == RefreshPreimage(m, l) {
      TaggedInjective(n, Ascii(REFRESH_TAG), SessionKeyBytes(k), m, SessionKeyBytes(l));
      SessionKeyBytesInjective(k, l);
    }
  }

  lemma OptionalKeyBytesInjective(k: Option<RawSessionKey>, l: Option<RawSessionKey>)
    requires OptionalKeyBytes(k) == OptionalKeyBytes(l)
    ensures k == l
  {
    assert |OptionalKeyBytes(k)| == |OptionalKeyBytes(l)|;
    if k.Some? { SessionKeyBytesInjective(k.value, l.value); }
  }

  lemma InitializePreimageInjective(n: NonceData, k: Option<RawSessionKey>, m: NonceData, l: Option<RawSessionKey>)
    ensures InitializePreimage(n, k) == InitializePreimage(m, l) <==> n == m && k == l
  {
    if InitializePreimage(n, k) == InitializePreimage(m, l) {
      TaggedInjective(n, Ascii(INITIALIZE_TAG), OptionalKeyBytes(k), m, OptionalKeyBytes(l));
      OptionalKeyBytesInjective(k, l);
    }
  }

  // ----- separation: the byte after the nonce tells the kind

  lemma TagByte(nonce: NonceData, tag: string, rest: bytes)
    requires tag != "" && IsAscii(tag)
    ensures |NonceBytes(nonce) + (Ascii(tag) + rest)| > 64
    ensures (NonceBytes(nonce) + (Ascii(tag) + rest))[64] == tag[0] as int
  {
    assert (Ascii(tag) + rest)[0] == Ascii(tag)[0];
  }

  lemma ExecuteTag(n: NonceData, a: seq<AccountInfo>, v: seq<CompiledInstruction>)
    requires ExecutePreimage(n, a, v).Some?
    ensures ByteAt(ExecutePreimage(n, a, v).value, 64, [101], 0)
  {
    TagByte(n, EXECUTE_TAG, [LowByte(|a|)] + (AccountsBytes(a) + InstructionsPart(v).value));
  }

  lemma RefreshTag(m: NonceData, k: RawSessionKey)
    ensures ByteAt(RefreshPreimage(m, k), 64, [114], 0)
  {
    TagByte(m, REFRESH_TAG, SessionKeyBytes(k));
  }

  lemma InitializeTag(l: NonceData, j: Option<RawSessionKey>)
    ensures ByteAt(InitializePreimage(l, j), 64, [105], 0)
  {
    TagByte(l, INITIALIZE_TAG, OptionalKeyBytes(j));
  }

  lemma BytesTell(b: bytes, c: bytes, x: byte, y: byte)
    requires ByteAt(b, 64, [x], 0) && ByteAt(c, 64, [y], 0)
    ensures x != y ==> b != c
  {
  }

  /** No payload is of two kinds. */
  lemma KindsAreSeparate(n: NonceData, a: seq<AccountInfo>, v: seq<CompiledInstruction>, m: NonceData,
                         k: RawSessionKey, l: NonceData, j: Option<RawSessionKey>)
    ensures ExecutePreimage(n, a, v) != Some(RefreshPreimage(m, k))
    ensures ExecutePreimage(n, a, v) != Some(InitializePreimage(l, j))
    ensures RefreshPreimage(m, k) != InitializePreimage(l, j)
  {
    var e, r, i := ExecutePreimage(n, a, v), RefreshPreimage(m, k), InitializePreimage(l, j);
    RefreshTag(m, k);
    InitializeTag(l, j);
    BytesTell(r, i, 114, 105);
    if e.Some? {
      ExecuteTag(n, a, v);
      BytesTell(e.value, r, 101, 114);
      BytesTell(e.value, i, 101, 105);
    }
  }

  // ----- the bound of 255 accounts is sharp

  function NullAccounts(n: nat): (a: seq<AccountInfo>)
    ensures |a| == n
  {
    if n == 0 then [] else [AccountInfo(Zeros(32), false, false)] + NullAccounts(n - 1)
  }

  lemma ZerosAdd(m: nat, n: nat)
    ensures Zeros(m) + Zeros(n) == Zeros(m + n)
  {
  }

  lemma {:induction false} NullAccountsBytes(n: nat)
    ensures AccountsBytes(NullAccounts(n)) == Zeros(34 * n)
  {
    if n > 0 {
      var a := AccountInfo(Zeros(32), false, false);
      NullAccountsBytes(n - 1);
      assert NullAccounts(n)[1..] == NullAccounts(n - 1);
      assert AccountBytes(a) == Zeros(34);
      ZerosAdd(34, 34 * (n - 1));
    }
  }

  /** An account whose key reads as an instruction count and the head of one instruction with 8700 data bytes. */
  function HeadAccount(): AccountInfo {
    AccountInfo([1, 0, 0, 0xfc, 0x21] + Zeros(27), false, false)
  }

  lemma {:induction false} HeadBytes(n: nat)
    ensures AccountsBytes([HeadAccount()] + NullAccounts(n)) == [1, 0, 0, 0xfc, 0x21] + Zeros(34 * n + 29)
  {
    var accounts := [HeadAccount()] + NullAccounts(n);
    NullAccountsBytes(n);
    assert accounts[1..] == NullAccounts(n);
    assert AccountBytes(HeadAccount()) == [1, 0, 0, 0xfc, 0x21] + Zeros(29);
    ZerosAdd(29, 34 * n);
  }

  lemma {:induction false} LowTwoBytes(v: nat, hi: nat)
    requires hi == v / 256
    ensures LE(v, 2) == [LowByte(v), LowByte(hi)]
  {
    assert LE(v, 2) == [v % 256] + LE(hi, 1);
    assert LE(hi, 1) == [hi % 256] + LE(hi / 256, 0);
    assert |LE(hi / 256, 0)| == 0;
    assert [hi % 256] + LE(hi / 256, 0) == [hi % 256];
  }

  lemma {:induction false} DataLength(n: nat)
    requires n == 8700
    ensures LE(n, 2) == [0xfc, 0x21]
  {
    LowTwoBytes(n, 33);
  }

  lemma OneLongInstruction(n: nat)
    requires n == 8700
    ensures InstructionsPart([CompiledInstruction(0, [], Zeros(n))]) == Some([1, 0, 0, 0xfc, 0x21] + Zeros(n))
  {
    var i := CompiledInstruction(0, [], Zeros(n));
    DataLength(n);
    Concat2([0], []);
    Concat2([0xfc, 0x21], Zeros(n));
    Concat3([0], [0] + [], [0xfc, 0x21] + Zeros(n));
    assert SerializeSmallVecU8([]) == Some([0] + []);
    assert SerializeSmallVecU16(Zeros(n)) == Some([0xfc, 0x21] + Zeros(n));
    assert SerializeCompiledInstruction(i) == Some([0] + ([0] + [] + ([0xfc, 0x21] + Zeros(n))));
    EachOfOne(i);
    HeadJoins(Zeros(n));
    assert LowByte(|[i]|) == 1;
  }

  lemma HeadJoins(z: bytes)
    ensures [1] + ([0] + ([0] + [] + ([0xfc, 0x21] + z))) == [1, 0, 0, 0xfc, 0x21] + z
  {
  }

  lemma NoInstructions(v: seq<CompiledInstruction>)
    requires v == []
    ensures InstructionsPart(v) == Some([0])
  {
    assert SerializeEach(v) == Some([]);
    assert LowByte(|v|) == 0;
    assert [LowByte(|v|)] + [] == [0];
  }

  lemma EachOfOne(i: CompiledInstruction)
    requires SerializeCompiledInstruction(i).Some?
    ensures SerializeEach([i]) == SerializeCompiledInstruction(i)
  {
    assert [i][1..] == [];
    assert SerializeEach([]) == Some([]);
    WholeRest(SerializeCompiledInstruction(i).value);
  }

  /** 256 accounts wrap the count byte: they can read as no accounts and one long instruction. */
  lemma {:induction false} CountWrapsAt256(nonce: NonceData, n: nat)
    requires n == 255
    ensures ExecutePreimage(nonce, [HeadAccount()] + NullAccounts(n), []).Some?
    ensures ExecutePreimage(nonce, [HeadAccount()] + NullAccounts(n), [])
            == ExecutePreimage(nonce, [], [CompiledInstruction(0, [], Zeros(8700))])
  {
    var accounts := [HeadAccount()] + NullAccounts(n);
    HeadBytes(n);
    OneLongInstruction(8700);
    ZerosAdd(8699, 1);
    NoInstructions([]);
    assert AccountsBytes(accounts) + [0] == [1, 0, 0, 0xfc, 0x21] + Zeros(8700);
    assert AccountsBytes([]) + InstructionsPart([CompiledInstruction(0, [], Zeros(8700))]).value
           == [1, 0, 0, 0xfc, 0x21] + Zeros(8700);
  }
}

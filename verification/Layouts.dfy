// Where every byte stands: the formats read by offset, and short encodings written out.
module Layouts {
  import opened Basics
  import opened Endian
  import opened Text
  import opened Der
  import opened Spki
  import opened Cbor
  import opened Nonce
  import opened ClientData
  import opened Wire
  import opened Preimages

  // ----- integers

  /** The low byte first. */
  lemma {:induction false} TwoBytesLE(v: u16)
    ensures LE(v, 2) == [v % 256, v / 256]
  {
    LowTwoBytes(v, v / 256);
  }

  /** The high byte first. */
  lemma {:induction false} TwoBytesBE(v: u16)
    ensures BE(v, 2) == [v / 256, v % 256]
  {
    OneByteBE(v / 256);
    assert BE(v, 2) == BE(v / 256, 1) + [v % 256];
  }

  lemma {:induction false} OneByteBE(v: byte)
    ensures BE(v, 1) == [v]
  {
    assert BE(v, 1) == BE(v / 256, 0) + [v % 256];
  }

  lemma {:induction false} FourBytesBE(v: u32)
    ensures BE(v, 4) == [v / 0x100_0000, v / 0x1_0000 % 256, v / 256 % 256, v % 256]
  {
    TwoBytesBE(v / 0x1_0000);
    assert v / 256 / 256 == v / 0x1_0000 && v / 0x1_0000 / 256 == v / 0x100_0000;
    assert BE(v / 256, 3) == BE(v / 256 / 256, 2) + [v / 256 % 256];
    assert BE(v, 4) == BE(v / 256, 3) + [v % 256];
  }

  // ----- challenge payloads

  predicate IsFlag(x: byte, b: bool) { x == if b then 1 else 0 }

  lemma {:induction false} AccountStandsAt(accounts: seq<AccountInfo>, k: nat)
    requires k < |accounts|
    ensures var b, o := AccountsBytes(accounts), 34 * k;
            b[o..o + 32] == accounts[k].key
            && IsFlag(b[o + 32], accounts[k].isSigner) && IsFlag(b[o + 33], accounts[k].isWritable)
  {
    var first, rest := AccountBytes(accounts[0]), AccountsBytes(accounts[1..]);
    if k == 0 {
      assert AccountsBytes(accounts)[0..32] == first[..32];
    } else {
      AccountStandsAt(accounts[1..], k - 1);
      SliceBehind(first, rest, 34 * k - 34, 34 * k - 2);
      assert AccountsBytes(accounts) == first + rest;
    }
  }

  lemma SliceBehind(a: bytes, b: bytes, i: nat, j: nat)
    requires i <= j <= |b|
    ensures (a + b)[|a| + i..|a| + j] == b[i..j]
  {
  }

  lemma SlicesOf(h: bytes, s: bytes, t: bytes, r: bytes)
    requires |h| == 32 && |s| == 32
    ensures var b := h + s + (t + r);
            b[..32] == h && b[32..64] == s && b[64..64 + |t|] == t && b[64 + |t|..] == r
  {
    assert h + s + (t + r) == h + (s + (t + r));
  }

  lemma ListsBehind(n: byte, accounts: bytes, m: byte, each: bytes)
    ensures var b := [n] + (accounts + ([m] + each));
            b[0] == n && b[1..1 + |accounts|] == accounts && b[1 + |accounts|] == m && b[2 + |accounts|..] == each
  {
  }

  /** `execute_instructions`, `refresh_session_key` and `initialize_passkey`, byte by byte. */
  const EXECUTE_BYTES: bytes :=
    [101, 120, 101, 99, 117, 116, 101, 95, 105, 110, 115, 116, 114, 117, 99, 116, 105, 111, 110, 115]
  const REFRESH_BYTES: bytes :=
    [114, 101, 102, 114, 101, 115, 104, 95, 115, 101, 115, 115, 105, 111, 110, 95, 107, 101, 121]
  const INITIALIZE_BYTES: bytes :=
    [105, 110, 105, 116, 105, 97, 108, 105, 122, 101, 95, 112, 97, 115, 115, 107, 101, 121]

  lemma TagBytes()
    ensures Ascii(EXECUTE_TAG) == EXECUTE_BYTES
    ensures Ascii(REFRESH_TAG) == REFRESH_BYTES
    ensures Ascii(INITIALIZE_TAG) == INITIALIZE_BYTES
  {
  }

  lemma {:induction false} ExecuteHead(n: NonceData, accounts: seq<AccountInfo>, instructions: seq<CompiledInstruction>)
    returns (lists: bytes)
    requires ExecutePreimage(n, accounts, instructions).Some?
    ensures InstructionsPart(instructions).Some?
    ensures lists == [LowByte(|accounts|)] + (AccountsBytes(accounts) + InstructionsPart(instructions).value)
    ensures var b := ExecutePreimage(n, accounts, instructions).value;
            |b| == 84 + |lists| && b[..32] == n.slothash && b[32..64] == n.signerKey && b[64..84] == EXECUTE_BYTES
            && b[84..] == lists
  {
    TagBytes();
    lists := [LowByte(|accounts|)] + (AccountsBytes(accounts) + InstructionsPart(instructions).value);
    SlicesOf(n.slothash, n.signerKey, Ascii(EXECUTE_TAG), lists);
  }

  /** The execute payload: slot hash, signer, tag, the account count, per account key, signer flag and writable flag,
      the instruction count, and the instructions as they travel on the wire. */
  lemma {:induction false} ExecutePayloadLayout(n: NonceData, accounts: seq<AccountInfo>,
                                                instructions: seq<CompiledInstruction>)
    requires ExecutePreimage(n, accounts, instructions).Some?
    ensures SerializeEach(instructions).Some?
    ensures var b, l := ExecutePreimage(n, accounts, instructions).value, 34 * |accounts|;
            && |b| >= 86 + l
            && b[..32] == n.slothash && b[32..64] == n.signerKey && b[64..84] == EXECUTE_BYTES
            && b[84] == |accounts| % 256 && b[85 + l] == |instructions| % 256
            && b[86 + l..] == SerializeEach(instructions).value
            && forall k :: 0 <= k < |accounts| ==>
                 b[85 + 34 * k..117 + 34 * k] == accounts[k].key
                 && IsFlag(b[117 + 34 * k], accounts[k].isSigner) && IsFlag(b[118 + 34 * k], accounts[k].isWritable)
  {
    var b, list := ExecutePreimage(n, accounts, instructions).value, AccountsBytes(accounts);
    var lists := ExecuteHead(n, accounts, instructions);
    ListsBehind(LowByte(|accounts|), list, LowByte(|instructions|), SerializeEach(instructions).value);
    assert b[84..] == lists;
    assert b[86 + |list|..] == lists[2 + |list|..];
    forall k | 0 <= k < |accounts|
      ensures b[85 + 34 * k..117 + 34 * k] == accounts[k].key
      ensures IsFlag(b[117 + 34 * k], accounts[k].isSigner) && IsFlag(b[118 + 34 * k], accounts[k].isWritable)
    {
      AccountStandsAt(accounts, k);
      AccountInLists(b, lists, list, k);
    }
  }

  lemma AccountInLists(b: bytes, lists: bytes, list: bytes, k: nat)
    requires |b| >= 84 && b[84..] == lists && |lists| > |list| && lists[1..1 + |list|] == list
    requires 34 * k + 34 <= |list|
    ensures b[85 + 34 * k..117 + 34 * k] == list[34 * k..34 * k + 32]
    ensures b[117 + 34 * k] == list[34 * k + 32] && b[118 + 34 * k] == list[34 * k + 33]
  {
    forall i | 0 <= i < |list| ensures list[i] == b[85 + i] { assert list[i] == lists[1 + i]; }
    var x, y := b[85 + 34 * k..117 + 34 * k], list[34 * k..34 * k + 32];
    forall i | 0 <= i < 32 ensures x[i] == y[i] { assert y[i] == list[34 * k + i]; }
  }

  /** The refresh payload: slot hash, signer, tag, key, and the duration in eight little-endian bytes. */
  lemma RefreshPayloadLayout(n: NonceData, key: RawSessionKey)
    ensures var b := RefreshPreimage(n, key);
            && |b| == 123 && b[..32] == n.slothash && b[32..64] == n.signerKey && b[64..83] == REFRESH_BYTES
            && b[83..115] == key.key && FromLE(b[115..123]) == key.expiration
  {
    TagBytes();
    var k := SessionKeyBytes(key);
    SlicesOf(n.slothash, n.signerKey, Ascii(REFRESH_TAG), k);
    KeyBehind(RefreshPreimage(n, key), 83, key);
  }

  lemma KeyBehind(b: bytes, o: nat, key: RawSessionKey)
    requires o <= |b| && b[o..] == SessionKeyBytes(key)
    ensures |b| == o + 40 && b[o..o + 32] == key.key && FromLE(b[o + 32..o + 40]) == key.expiration
  {
    Widths();
    ReadsBackLE(key.expiration, 8);
    assert b[o..o + 32] == b[o..][..32] == key.key;
    assert b[o + 32..o + 40] == b[o..][32..40] == LE(key.expiration, 8);
  }

  /** The initialise payload: the same with its own tag, and the key only when one is given. */
  lemma InitializePayloadLayout(n: NonceData, key: Option<RawSessionKey>)
    ensures var b := InitializePreimage(n, key);
            && |b| >= 82 && b[..32] == n.slothash && b[32..64] == n.signerKey && b[64..82] == INITIALIZE_BYTES
            && (key.None? ==> |b| == 82)
            && (key.Some? ==> |b| == 122 && b[82..114] == key.value.key
                              && FromLE(b[114..122]) == key.value.expiration)
  {
    TagBytes();
    SlicesOf(n.slothash, n.signerKey, Ascii(INITIALIZE_TAG), OptionalKeyBytes(key));
    if key.Some? { KeyBehind(InitializePreimage(n, key), 82, key.value); }
  }

  // ----- instruction data

  /** A length byte and that many bytes. */
  ghost predicate Vec8At(b: bytes, o: nat, v: bytes) {
    o + 1 + |v| <= |b| && b[o] == |v| && b[o + 1..o + 1 + |v|] == v
  }

  lemma Vec8(v: bytes)
    requires SerializeSmallVecU8(v).Some?
    ensures SerializeSmallVecU8(v).value == [|v|] + v
  {
    Concat2([|v|], v);
  }

  /** One instruction: program index, account indices behind their count, data behind a two-byte length. */
  lemma InstructionLayout(i: CompiledInstruction)
    requires SerializeCompiledInstruction(i).Some?
    ensures var b, n := SerializeCompiledInstruction(i).value, |i.accountsIndices|;
            && |b| == 4 + n + |i.data| && b[0] == i.programIdIndex && Vec8At(b, 1, i.accountsIndices)
            && FromLE(b[2 + n..4 + n]) == |i.data| && b[4 + n..] == i.data
  {
    var accounts, data := i.accountsIndices, i.data;
    Vec8(accounts);
    Concat2(LE(|data|, 2), data);
    Concat3([i.programIdIndex], [|accounts|] + accounts, LE(|data|, 2) + data);
    Widths();
    ReadsBackLE(|data|, 2);
    var b := SerializeCompiledInstruction(i).value;
    assert b == [i.programIdIndex] + (([|accounts|] + accounts) + (LE(|data|, 2) + data));
    assert b[2 + |accounts|..4 + |accounts|] == LE(|data|, 2);
  }

  lemma {:induction false} CountedList(v: seq<CompiledInstruction>)
    requires SerializeCompiledInstructions(v).Some?
    ensures SerializeEach(v).Some? && SerializeCompiledInstructions(v).value == [|v|] + SerializeEach(v).value
  {
    Concat2([|v|], SerializeEach(v).value);
  }

  lemma FiveParts(s: byte, e: byte, slot: bytes, v: bytes, n: byte, each: bytes)
    requires |slot| == 2 && |v| <= 0xff
    ensures var b := [s] + ([e] + (slot + (([|v|] + v) + ([n] + each))));
            |b| == 6 + |v| + |each| && b[0] == s && b[1] == e && b[2..4] == slot && Vec8At(b, 4, v)
            && b[5 + |v|] == n && b[6 + |v|..] == each
  {
  }

  /** Execute arguments: signature scheme, execution scheme, slot value, verification data, instructions. */
  lemma ExecuteLayout(a: ExecuteArgs)
    requires SerializeExecuteArgs(a).Some?
    ensures SerializeEach(a.instructions).Some?
    ensures var b, n := SerializeExecuteArgs(a).value, |a.extraVerificationData|;
            && |b| >= 6 + n && b[0] == a.signatureScheme && b[1] == a.signerExecutionScheme
            && FromLE(b[2..4]) == a.slothash && Vec8At(b, 4, a.extraVerificationData)
            && b[5 + n] == |a.instructions| && b[6 + n..] == SerializeEach(a.instructions).value
  {
    var v := a.extraVerificationData;
    Vec8(v);
    CountedList(a.instructions);
    Widths();
    ReadsBackLE(a.slothash, 2);
    Concat5([a.signatureScheme], [a.signerExecutionScheme], LE(a.slothash, 2), [|v|] + v,
            [|a.instructions|] + SerializeEach(a.instructions).value);
    FiveParts(a.signatureScheme, a.signerExecutionScheme, LE(a.slothash, 2), v, |a.instructions|,
              SerializeEach(a.instructions).value);
  }

  /** Sessioned arguments: signature scheme, execution scheme, instructions. */
  lemma SessionedLayout(a: SessionedArgs)
    requires SerializeSessionedArgs(a).Some?
    ensures SerializeEach(a.instructions).Some?
    ensures var b := SerializeSessionedArgs(a).value;
            && |b| >= 3 && b[0] == a.signatureScheme && b[1] == a.signerExecutionScheme
            && b[2] == |a.instructions| && b[3..] == SerializeEach(a.instructions).value
  {
    CountedList(a.instructions);
    Concat3([a.signatureScheme], [a.signerExecutionScheme], [|a.instructions|] + SerializeEach(a.instructions).value);
  }

  lemma KeyEncodes(k: SessionKey)
    requires SerializeSessionKey(k).Some?
    ensures IsRaw(k) && SerializeSessionKey(k).value == SessionKeyBytes(k)
  {
    Concat2(k.key, LE(k.expiration, 8));
  }

  lemma FourParts(slot: bytes, s: byte, v: bytes, k: bytes)
    requires |slot| == 2 && |v| <= 0xff
    ensures var b := slot + ([s] + (([|v|] + v) + k));
            |b| == 4 + |v| + |k| && b[..2] == slot && b[2] == s && Vec8At(b, 3, v) && b[4 + |v|..] == k
  {
  }

  /** Refresh arguments: slot value, signature scheme, verification data, session key. */
  lemma RefreshLayout(a: RefreshArgs)
    requires SerializeRefreshArgs(a).Some?
    ensures var b, n := SerializeRefreshArgs(a).value, |a.verificationData|;
            && |b| == 44 + n && FromLE(b[..2]) == a.slothash && b[2] == a.signatureScheme
            && Vec8At(b, 3, a.verificationData) && b[4 + n..36 + n] == a.sessionKey.key
            && FromLE(b[36 + n..44 + n]) == a.sessionKey.expiration
  {
    var v := a.verificationData;
    Vec8(v);
    KeyEncodes(a.sessionKey);
    Widths();
    ReadsBackLE(a.slothash, 2);
    Concat4(LE(a.slothash, 2), [a.signatureScheme], [|v|] + v, SessionKeyBytes(a.sessionKey));
    FourParts(LE(a.slothash, 2), a.signatureScheme, v, SessionKeyBytes(a.sessionKey));
    KeyBehind(SerializeRefreshArgs(a).value, 4 + |v|, a.sessionKey);
  }

  /** Initialise arguments: slot value, signature scheme, initialisation data, and a session key behind 1 or a 0. */
  lemma InitializeLayout(a: InitializeArgs)
    requires SerializeInitializeArgs(a).Some?
    ensures var b, n := SerializeInitializeArgs(a).value, |a.initializationData|;
            && |b| >= 5 + n && FromLE(b[..2]) == a.slothash && b[2] == a.signatureScheme
            && Vec8At(b, 3, a.initializationData)
            && (a.sessionKey.None? ==> |b| == 5 + n && b[4 + n] == 0)
            && (a.sessionKey.Some? ==>
                  |b| == 45 + n && b[4 + n] == 1 && b[5 + n..37 + n] == a.sessionKey.value.key
                  && FromLE(b[37 + n..45 + n]) == a.sessionKey.value.expiration)
  {
    var b, v, o := SerializeInitializeArgs(a).value, a.initializationData, SerializeOptionalKey(a.sessionKey).value;
    Vec8(v);
    Widths();
    ReadsBackLE(a.slothash, 2);
    if a.sessionKey.Some? {
      KeyEncodes(a.sessionKey.value);
      Concat2([1], SessionKeyBytes(a.sessionKey.value));
    }
    Concat4(LE(a.slothash, 2), [a.signatureScheme], [|v|] + v, o);
    FourParts(LE(a.slothash, 2), a.signatureScheme, v, o);
    assert b[4 + |v|] == b[4 + |v|..][0];
    if a.sessionKey.Some? {
      assert b[5 + |v|..] == b[4 + |v|..][1..] == SessionKeyBytes(a.sessionKey.value);
      KeyBehind(b, 5 + |v|, a.sessionKey.value);
    }
  }

  // ----- flags and text of the rebuilt document

  /** 16 says get, 8 omits crossOrigin, 4 adds the extra field, 2 says http, 1 is the crossOrigin value. */
  lemma FlagMeanings(get: bool, omit: bool, extra: bool, http: bool, cross: bool, port: Option<u16>)
    ensures var v := (if get then 16 else 0) + (if omit then 8 else 0) + (if extra then 4 else 0)
                     + (if http then 2 else 0) + if cross then 1 else 0;
            MeaningOf(Params(v, port))
            == Meaning(if get then Get else Create, if omit then None else Some(cross), http, extra, port)
  {
  }

  lemma DocumentStart()
    ensures BEFORE_TYPE + TypeText(Get) + BEFORE_CHALLENGE == "{\"type\":\"webauthn.get\",\"challenge\":\""
  {
  }

  lemma DocumentOrigin()
    ensures BEFORE_ORIGIN + Scheme(false) == "\",\"origin\":\"https://"
  {
  }

  lemma DocumentEnd(m: Meaning)
    requires m.crossOrigin == Some(false) && !m.extra
    ensures QUOTE + Tail(m) == "\",\"crossOrigin\":false}"
  {
  }

  /** The document of an assertion on the default port, character by character. */
  lemma DocumentReads(rpId: string, challenge: bytes)
    ensures Template(Meaning(Get, Some(false), false, false, None), rpId, challenge)
            == "{\"type\":\"webauthn.get\",\"challenge\":\"" + EncodeBase64Url(challenge)
               + "\",\"origin\":\"https://" + rpId + "\",\"crossOrigin\":false}"
  {
    var m, c := Meaning(Get, Some(false), false, false, None), EncodeBase64Url(challenge);
    DocumentStart();
    DocumentOrigin();
    DocumentEnd(m);
    assert Origin(m, rpId) == Scheme(false) + rpId;
    DocumentJoins(BEFORE_TYPE, TypeText(Get), BEFORE_CHALLENGE, c, BEFORE_ORIGIN, Scheme(false), rpId, QUOTE + Tail(m));
  }

  lemma DocumentJoins(a: string, b: string, d: string, c: string, e: string, s: string, r: string, t: string)
    ensures a + (b + (d + (c + (e + ((s + r) + t))))) == (a + b + d) + c + (e + s) + r + t
  {
    assert a + (b + (d + (c + (e + ((s + r) + t))))) == (a + b + d) + (c + (e + ((s + r) + t)));
    assert c + (e + ((s + r) + t)) == c + ((e + s) + (r + t));
  }

  /** The alphabet of section 5 of RFC 4648. */
  lemma Base64UrlAlphabet(x: sextet)
    ensures x < 26 ==> Symbol(x) as int == 65 + x
    ensures 26 <= x < 52 ==> Symbol(x) as int == 97 + (x - 26)
    ensures 52 <= x < 62 ==> Symbol(x) as int == 48 + (x - 52)
    ensures Symbol(62) == '-' && Symbol(63) == '_'
  {
  }

  /** The six bytes 0, 1, 2, 253, 254, 255 in eight symbols. */
  lemma Base64UrlReads(b: bytes)
    requires b == [0, 1, 2, 253, 254, 255]
    ensures EncodeBase64Url(b) == "AAEC_f7_"
  {
    SextetsOfThree(0, 1, 2, [253, 254, 255]);
    SextetsOfThree(253, 254, 255, []);
    assert b == [0, 1, 2] + [253, 254, 255] && [253, 254, 255] == [253, 254, 255] + [];
    assert Sextets(b) == [0, 0, 4, 2, 63, 31, 59, 63];
  }

  /** One character of each length in UTF-8. */
  lemma Utf8Reads()
    ensures Utf8Char('A') == [0x41] && Utf8Char('\U{E9}') == [0xc3, 0xa9]
    ensures Utf8Char('\U{20AC}') == [0xe2, 0x82, 0xac] && Utf8Char('\U{1F600}') == [0xf0, 0x9f, 0x98, 0x80]
  {
  }

  lemma {:induction false} PortDigits(n: nat)
    requires n == 8443
    ensures Decimal(n) == "8443"
  {
    assert Decimal(n) == Decimal(n / 10) + [Digit(3)];
    assert Decimal(n / 10) == Decimal(n / 100) + [Digit(4)];
    assert Decimal(n / 100) == Decimal(n / 1000) + [Digit(4)];
    assert Decimal(n / 1000) == [Digit(8)];
  }

  // ----- short encodings, written out

  /** The signature (1, 1). */
  lemma SmallestSignature(r: nat, s: nat)
    requires r == 1 && s == 1
    ensures EncodeSignature(r, s) == [0x30, 0x06, 0x02, 0x01, 0x01, 0x02, 0x01, 0x01]
  {
    assert EncodeInteger(r) == [0x02] + [1] + [1];
    assert EncodeInteger(s) == [0x02] + [1] + [1];
    assert EncodeInteger(r) + EncodeInteger(s) == [0x02, 0x01, 0x01, 0x02, 0x01, 0x01];
    assert EncodeSignature(r, s) == [0x30] + [6] + (EncodeInteger(r) + EncodeInteger(s));
  }

  /** The fixed head of every P-256 SubjectPublicKeyInfo. */
  lemma SpkiHead(x: bytes, y: bytes)
    requires |x| == 32 && |y| == 32
    ensures EncodeSpki(x, y)
            == [0x30, 0x59, 0x30, 0x13, 0x06, 0x07, 0x2a, 0x86, 0x48, 0xce, 0x3d, 0x02, 0x01, 0x06, 0x08, 0x2a, 0x86,
                0x48, 0xce, 0x3d, 0x03, 0x01, 0x07, 0x03, 0x42, 0x00, 0x04] + (x + y)
  {
    AlgorithmBytes();
    ShortElement(0x03, BitString(x, y));
    ShortElement(0x30, SpkiContent(x, y));
    HeadJoinsPoint(x + y);
  }

  lemma ShortElement(tag: byte, content: bytes)
    requires |content| < 0x80
    ensures EncodeElement(tag, content) == [tag, |content|] + content
  {
    assert [tag] + [|content|] == [tag, |content|];
  }

  lemma ObjectIdentifiers()
    ensures EncodeElement(0x06, EC_PUBLIC_KEY_OID) == [0x06, 0x07, 0x2a, 0x86, 0x48, 0xce, 0x3d, 0x02, 0x01]
    ensures EncodeElement(0x06, PRIME256V1_OID) == [0x06, 0x08, 0x2a, 0x86, 0x48, 0xce, 0x3d, 0x03, 0x01, 0x07]
  {
    ShortElement(0x06, EC_PUBLIC_KEY_OID);
    ShortElement(0x06, PRIME256V1_OID);
  }

  lemma AlgorithmBytes()
    ensures EncodeElement(0x30, AlgorithmContent())
            == [0x30, 0x13, 0x06, 0x07, 0x2a, 0x86, 0x48, 0xce, 0x3d, 0x02, 0x01, 0x06, 0x08, 0x2a, 0x86, 0x48, 0xce,
                0x3d, 0x03, 0x01, 0x07]
  {
    ObjectIdentifiers();
    ShortElement(0x30, AlgorithmContent());
  }

  lemma HeadJoinsPoint(p: bytes)
    ensures [0x30, 0x59]
            + ([0x30, 0x13, 0x06, 0x07, 0x2a, 0x86, 0x48, 0xce, 0x3d, 0x02, 0x01, 0x06, 0x08, 0x2a, 0x86, 0x48, 0xce,
                0x3d, 0x03, 0x01, 0x07] + ([0x03, 0x42] + ([0x00, 0x04] + p)))
            == [0x30, 0x59, 0x30, 0x13, 0x06, 0x07, 0x2a, 0x86, 0x48, 0xce, 0x3d, 0x02, 0x01, 0x06, 0x08, 0x2a, 0x86,
                0x48, 0xce, 0x3d, 0x03, 0x01, 0x07, 0x03, 0x42, 0x00, 0x04] + p
  {
  }

  /** Heads of every width, after appendix A of RFC 8949: 1000, a two-byte string and text, and 2^32 + 1. */
  lemma CborHeads()
    ensures Encode(Number(false, Two, 1000)) == [0x19, 0x03, 0xe8]
    ensures Encode(Number(true, Direct, 9)) == [0x29]
    ensures Encode(Number(false, One, 24)) == [0x18, 0x18]
    ensures Encode(Chunk(false, Direct, [1, 2])) == [0x42, 0x01, 0x02]
    ensures Encode(Chunk(true, Direct, [97, 98])) == [0x62, 0x61, 0x62]
    ensures Encode(Simple(Direct, 20)) == [0xf4]
  {
    Widths();
    TwoBytesBE(1000);
    OneByteBE(24);
    assert Body(Number(false, Two, 1000)) == [] && Body(Number(true, Direct, 9)) == [];
    assert [0x19] + [0x03, 0xe8] + [] == [0x19, 0x03, 0xe8];
  }

  lemma SmallNumber(v: nat)
    requires v < 24
    ensures Valid(Number(false, Direct, v)) && Encode(Number(false, Direct, v)) == [v]
  {
    assert Body(Number(false, Direct, v)) == [];
  }

  /** An array of one number. */
  lemma CborArray(x: nat)
    requires x < 24
    ensures Valid(Array(Direct, Cons(Number(false, Direct, x), Nil)))
    ensures Encode(Array(Direct, Cons(Number(false, Direct, x), Nil))) == [0x81, x]
  {
    var items := Cons(Number(false, Direct, x), Nil);
    SmallNumber(x);
    ListOf(Number(false, Direct, x), Nil);
    assert Count(Nil) == 0 && EncodeAll(Nil) == [];
    assert Body(Array(Direct, items)) == [x];
  }

  lemma {:induction false} ListOf(head: Item, tail: Items)
    requires Valid(head) && AllValid(tail)
    ensures AllValid(Cons(head, tail)) && EncodeAll(Cons(head, tail)) == Encode(head) + EncodeAll(tail)
    ensures Count(Cons(head, tail)) == 1 + Count(tail)
  {
  }

  /** A map of one entry, a number to a number. */
  lemma CborMap(x: nat, y: nat)
    requires x < 24 && y < 24
    ensures var entries := Cons(Number(false, Direct, x), Cons(Number(false, Direct, y), Nil));
            Valid(Entries(Direct, entries)) && Encode(Entries(Direct, entries)) == [0xa1, x, y]
  {
    var key, value := Number(false, Direct, x), Number(false, Direct, y);
    SmallNumber(x);
    SmallNumber(y);
    ListOf(value, Nil);
    ListOf(key, Cons(value, Nil));
    assert Count(Nil) == 0 && EncodeAll(Nil) == [];
    assert Body(Entries(Direct, Cons(key, Cons(value, Nil)))) == [x, y];
  }

  /** A number under a tag. */
  lemma CborTag(tag: nat, x: nat)
    requires tag < 24 && x < 24
    ensures Valid(Tagged(Direct, tag, Number(false, Direct, x)))
    ensures Encode(Tagged(Direct, tag, Number(false, Direct, x))) == [0xc0 + tag, x]
  {
    SmallNumber(x);
    assert Body(Tagged(Direct, tag, Number(false, Direct, x))) == [x];
  }

  /** The order of the group and half of it, as both SDKs write them. */
  lemma GroupOrder()
    ensures P256_ORDER
            == 115792089210356248762697446949407573529996955224135760342422259061068512044369
    ensures P256_ORDER == 2 * P256_HALF_ORDER + 1
  {
  }
}

// Splitting registration authenticator data into its parts (section 6.5.1 of WebAuthn Level 2).
module AttestedCredential {
  import opened Basics
  import opened Endian
  import opened Cbor
  import opened Spki

  const MIN_LENGTH := 37

  /** The parts before the COSE key is decoded: `coseKey` holds its CBOR bytes. */
  datatype Attested = Attested(rpIdHash: bytes, flags: byte, signCount: nat, aaguid: bytes,
                               credentialId: bytes, coseKey: bytes)

  predicate HasCredential(flags: byte) { flags / 0x40 % 2 == 1 }

  predicate HasExtensions(flags: byte) { flags / 0x80 == 1 }

  predicate WellSized(a: Attested) {
    |a.rpIdHash| == 32 && a.signCount < Pow256(4) && |a.aaguid| == 16 && |a.credentialId| < 0x1_0000
  }

  /** The fixed part: hash, flags, counter, aaguid and the length of the credential id. */
  function Prefix(a: Attested): (r: bytes)
    requires WellSized(a)
    ensures |r| == 55
  {
    a.rpIdHash + ([a.flags] + (BE(a.signCount, 4) + (a.aaguid + BE(|a.credentialId|, 2))))
  }

  function Assemble(a: Attested, extensions: bytes): bytes
    requires WellSized(a)
  {
    Prefix(a) + (a.credentialId + (a.coseKey + extensions))
  }

  /** The bytes are an attested credential whose key is one CBOR item, followed by extensions if flagged. */
  ghost predicate IsAttested(b: bytes, a: Attested, key: Item, extensions: bytes) {
    WellSized(a) && Valid(key) && a.coseKey == Encode(key)
    && (64 <= a.flags < 128 || 192 <= a.flags) && (a.flags < 128 ==> extensions == [])
    && b == Assemble(a, extensions)
  }

  /** The fields at their fixed places, given where the key ends. */
  function FieldsAt(b: bytes, end: nat): Attested
    requires |b| >= 55 && 55 + FromBE(b[53..55]) <= end <= |b|
  {
    var keyStart := 55 + FromBE(b[53..55]);
    Attested(b[0..32], b[32], FromBE(b[33..37]), b[37..53], b[55..keyStart], b[keyStart..end])
  }

  /** The checks of the parser, one after the other. */
  function Split(b: bytes): Option<Attested> {
    if |b| < MIN_LENGTH || !HasCredential(b[32]) || |b| < 55 then None
    else
      var keyStart := 55 + FromBE(b[53..55]);
      if keyStart > |b| then None
      else
        var end :- Skip(b, keyStart);
        if !HasExtensions(b[32]) && end != |b| then None
        else Some(FieldsAt(b, end))
  }

  lemma JoinedSlices(p: bytes, h: bytes, f: byte, s: bytes, g: bytes, l: bytes)
    requires p == h + ([f] + (s + (g + l)))
    requires |h| == 32 && |s| == 4 && |g| == 16 && |l| == 2
    ensures p[0..32] == h && p[32] == f && p[33..37] == s && p[37..53] == g && p[53..55] == l
  {
    assert p[32..] == [f] + (s + (g + l));
    assert p[33..] == p[32..][1..] == s + (g + l);
    assert p[37..] == p[33..][4..] == g + l;
    assert p[33..37] == p[33..][..4] && p[37..53] == p[37..][..16] && p[53..55] == p[37..][16..18];
  }

  lemma SliceOfPrefix(b: bytes, n: nat, i: nat, j: nat)
    requires i <= j <= n <= |b|
    ensures b[..n][i..j] == b[i..j]
  {
  }

  lemma PrefixFields(b: bytes, a: Attested)
    requires WellSized(a) && |b| >= 55 && b[..55] == Prefix(a)
    ensures b[0..32] == a.rpIdHash && b[32] == a.flags && FromBE(b[33..37]) == a.signCount
    ensures b[37..53] == a.aaguid && FromBE(b[53..55]) == |a.credentialId|
  {
    JoinedSlices(b[..55], a.rpIdHash, a.flags, BE(a.signCount, 4), a.aaguid, BE(|a.credentialId|, 2));
    SliceOfPrefix(b, 55, 0, 32); SliceOfPrefix(b, 55, 33, 37);
    SliceOfPrefix(b, 55, 37, 53); SliceOfPrefix(b, 55, 53, 55);
    ReadsBackBE(a.signCount, 4);
    Widths();
    ReadsBackBE(|a.credentialId|, 2);
  }

  lemma SliceSplits(b: bytes, i: nat, j: nat, k: nat)
    requires i <= j <= k <= |b|
    ensures b[i..k] == b[i..j] + b[j..k]
  {
  }

  lemma FiveSlices(b: bytes)
    requires |b| >= 55
    ensures b[..55] == b[0..32] + (b[32..33] + (b[33..37] + (b[37..53] + b[53..55])))
  {
    SliceSplits(b, 0, 32, 55);
    SliceSplits(b, 32, 33, 55);
    SliceSplits(b, 33, 37, 55);
    SliceSplits(b, 37, 53, 55);
  }

  lemma PrefixOfFields(b: bytes, a: Attested)
    requires |b| >= 55
    requires a.rpIdHash == b[0..32] && a.flags == b[32] && a.signCount == FromBE(b[33..37])
    requires a.aaguid == b[37..53] && |a.credentialId| == FromBE(b[53..55])
    ensures WellSized(a) && Prefix(a) == b[..55]
  {
    ArgumentFits(b[33..37], 4);
    ArgumentFits(b[53..55], 2);
    Widths();
    FiveSlices(b);
    assert b[32..33] == [b[32]];
  }

  /** The key stands after the fixed part and the credential id, and is followed by nothing but flagged extensions. */
  ghost predicate KeyStands(b: bytes, keyStart: nat, key: Item, end: nat) {
    |b| >= 55 && HasCredential(b[32]) && keyStart == 55 + FromBE(b[53..55]) && ItemAt(b, keyStart, key, end)
    && (HasExtensions(b[32]) || end == |b|)
  }

  lemma StandingSplits(b: bytes, keyStart: nat, key: Item, end: nat)
    requires KeyStands(b, keyStart, key, end) && keyStart <= |b|
    ensures keyStart <= end <= |b| && Split(b) == Some(FieldsAt(b, end))
  {
    ItemSkips(b, keyStart, key, end);
    SplitFrom(b, keyStart, end);
  }

  lemma {:induction false} SplitFrom(b: bytes, keyStart: nat, end: nat)
    requires |b| >= 55 && HasCredential(b[32]) && keyStart == 55 + FromBE(b[53..55]) <= |b|
    requires Skip(b, keyStart) == Some(end) && (HasExtensions(b[32]) || end == |b|)
    ensures keyStart <= end <= |b| && Split(b) == Some(FieldsAt(b, end))
  {
  }

  lemma AssembledSlices(b: bytes, a: Attested, key: Item, extensions: bytes) returns (keyStart: nat, end: nat)
    requires IsAttested(b, a, key, extensions)
    ensures keyStart == 55 + |a.credentialId| && end == keyStart + |a.coseKey| && |b| == end + |extensions|
    ensures b[..55] == Prefix(a) && b[55..keyStart] == a.credentialId && b[keyStart..end] == a.coseKey
  {
    keyStart := 55 + |a.credentialId|;
    end := keyStart + |a.coseKey|;
    FourSlices(b, Prefix(a), a.credentialId, a.coseKey, extensions);
  }

  lemma FieldsOfSlices(b: bytes, a: Attested, keyStart: nat, end: nat)
    requires WellSized(a) && 55 <= keyStart <= end <= |b| && keyStart == 55 + |a.credentialId|
    requires b[..55] == Prefix(a) && b[55..keyStart] == a.credentialId && b[keyStart..end] == a.coseKey
    ensures b[32] == a.flags && keyStart == 55 + FromBE(b[53..55]) && FieldsAt(b, end) == a
  {
    PrefixFields(b, a);
  }

  lemma {:induction false} SliceStands(b: bytes, keyStart: nat, key: Item, end: nat)
    requires Valid(key) && keyStart <= end <= |b| && b[keyStart..end] == Encode(key)
    ensures ItemAt(b, keyStart, key, end)
  {
    AtIsSlice(b, keyStart, Encode(key));
    StandingItem(b, keyStart, key);
  }

  lemma AssembledSplits(b: bytes, a: Attested, key: Item, extensions: bytes)
    requires IsAttested(b, a, key, extensions)
    ensures Split(b) == Some(a)
  {
    var keyStart, end := AssembledSlices(b, a, key, extensions);
    FieldsOfSlices(b, a, keyStart, end);
    FlagBits(a.flags);
    SliceStands(b, keyStart, key, end);
    StandingSplits(b, keyStart, key, end);
  }

  lemma FourSlices(b: bytes, p: bytes, q: bytes, r: bytes, s: bytes)
    requires b == p + (q + (r + s))
    ensures var (i, j, k) := (|p|, |p| + |q|, |p| + |q| + |r|);
            k <= |b| && b[..i] == p && b[i..j] == q && b[j..k] == r && |b| == k + |s|
  {
  }

  /** Bits 6 and 7 of the flag byte. */
  lemma FlagBits(flags: byte)
    ensures HasCredential(flags) <==> 64 <= flags < 128 || 192 <= flags
    ensures HasExtensions(flags) <==> 128 <= flags
  {
  }

  lemma SplitChecks(b: bytes) returns (start: nat, end: nat)
    requires Split(b).Some?
    ensures 55 <= |b| && HasCredential(b[32]) && start == 55 + FromBE(b[53..55]) <= |b| && Skip(b, start) == Some(end)
    ensures start <= end <= |b| && (!HasExtensions(b[32]) ==> end == |b|) && Split(b).value == FieldsAt(b, end)
  {
    start := 55 + FromBE(b[53..55]);
    end := Skip(b, start).value;
  }

  lemma KeyOfSlice(b: bytes, start: nat, end: nat) returns (key: Item)
    requires start <= end <= |b| && Skip(b, start) == Some(end)
    ensures Valid(key) && b[start..end] == Encode(key)
  {
    key := SkippedItem(b, start, end);
    ItemEnd(b, start, key, end);
    AtIsSlice(b, start, Encode(key));
  }

  lemma SplitIsAssembled(b: bytes) returns (key: Item, extensions: bytes)
    requires Split(b).Some?
    ensures IsAttested(b, Split(b).value, key, extensions)
  {
    var start, end := SplitChecks(b);
    FlagBits(b[32]);
    key := KeyOfSlice(b, start, end);
    extensions := b[end..];
    FieldsAssemble(b, FieldsAt(b, end), start, end);
  }

  lemma FieldsAssemble(b: bytes, a: Attested, start: nat, end: nat)
    requires 55 <= |b| && start == 55 + FromBE(b[53..55]) <= end <= |b| && a == FieldsAt(b, end)
    ensures WellSized(a) && b == Assemble(a, b[end..])
  {
    assert |b[55..start]| == FromBE(b[53..55]);
    PrefixOfFields(b, a);
    CutInFour(b, 55, start, end);
  }

  lemma CutInFour(b: bytes, i: nat, j: nat, k: nat)
    requires i <= j <= k <= |b|
    ensures b == b[..i] + (b[i..j] + (b[j..k] + b[k..]))
  {
  }

  /** The parser accepts exactly the assembled credentials and returns their parts. */
  lemma SplitIsExact(b: bytes, a: Attested)
    ensures Split(b) == Some(a) <==> exists key, extensions :: IsAttested(b, a, key, extensions)
  {
    if Split(b) == Some(a) {
      var key, extensions := SplitIsAssembled(b);
      assert IsAttested(b, a, key, extensions);
    }
    if key, extensions :| IsAttested(b, a, key, extensions) {
      AssembledSplits(b, a, key, extensions);
    }
  }

  /** `(b[i] << 8) | b[i + 1]` */
  function BigEndian16(b: bytes, i: nat): (r: nat)
    requires i + 2 <= |b|
    ensures r == FromBE(b[i..i + 2])
  {
    assert b[i..i + 2] == [b[i]] + [b[i + 1]] && [b[i]] == [] + [b[i]];
    FromBEAppend([b[i]], b[i + 1]);
    FromBEAppend([], b[i]);
    var high: int, low: int := b[i], b[i + 1];
    high * 256 + low
  }

  // ----- the COSE key

  /** A value of a decoded map, as far as the parser looks at it. */
  datatype CoseValue = Integer(value: int) | ByteString(data: bytes) | Other

  /** What the foreign CBOR decoder makes of the key's bytes. */
  datatype Decoded = NotAMap | Mapping(entries: map<int, CoseValue>)

  function Entry(m: map<int, CoseValue>, key: int): Option<CoseValue> {
    if key in m then Some(m[key]) else None
  }

  function CoordinateOf(m: map<int, CoseValue>, key: int): Option<bytes> {
    var value :- Entry(m, key);
    if value.ByteString? && |value.data| == 32 then Some(value.data) else None
  }

  /** EC2 key type, ES256, the P-256 curve and two 32-byte coordinates. */
  function CoseKey(decoded: Option<Decoded>): Option<P256Key> {
    if decoded.None? || decoded.value.NotAMap? then None
    else
      var m := decoded.value.entries;
      if Entry(m, 1) != Some(Integer(2)) then None
      else if Entry(m, 3) != Some(Integer(-7)) then None
      else if Entry(m, -1) != Some(Integer(1)) then None
      else
        var x :- CoordinateOf(m, -2);
        var y :- CoordinateOf(m, -3);
        Some(P256Key([if y[31] % 2 == 0 then 0x02 else 0x03] + x, x + y))
  }

  /** The map says it is this point of the curve. */
  ghost predicate IsCosePoint(decoded: Option<Decoded>, x: bytes, y: bytes) {
    |x| == 32 && |y| == 32 && decoded.Some? && decoded.value.Mapping?
    && var m := decoded.value.entries;
       Entry(m, 1) == Some(Integer(2)) && Entry(m, 3) == Some(Integer(-7)) && Entry(m, -1) == Some(Integer(1))
       && Entry(m, -2) == Some(ByteString(x)) && Entry(m, -3) == Some(ByteString(y))
  }

  /** The parser reads a key from exactly the maps of points, and it is the key of that point. */
  lemma CoseKeyIsExact(decoded: Option<Decoded>, key: P256Key)
    ensures CoseKey(decoded) == Some(key) <==> exists x, y :: IsCosePoint(decoded, x, y) && key == CompressedOf(x, y)
  {
    if CoseKey(decoded) == Some(key) {
      var m := decoded.value.entries;
      var x, y := CoordinateOf(m, -2).value, CoordinateOf(m, -3).value;
      assert IsCosePoint(decoded, x, y) && key == CompressedOf(x, y);
    }
  }

  /** The key a browser exposes beside the attested one matches it exactly when it is the SubjectPublicKeyInfo of the
      attested point. */
  lemma ExposedKeyMatches(spki: bytes, x: bytes, y: bytes)
    requires |x| == 32 && |y| == 32
    ensures KeyOf(spki) == Some(CompressedOf(x, y)) <==> spki == EncodeSpki(x, y)
  {
    KeyOfEncoding(x, y);
    if KeyOf(spki) == Some(CompressedOf(x, y)) {
      var x', y' :| IsSpki(spki, x', y') && KeyOf(spki) == Some(CompressedOf(x', y'));
      assert CompressedOf(x, y).uncompressed == CompressedOf(x', y').uncompressed;
      Cut(x, y, x', y');
    }
  }

  // ----- the whole parser

  datatype Credential = Credential(rpIdHash: bytes, flags: byte, signCount: nat, aaguid: bytes, credentialId: bytes,
                                   publicKey: P256Key)

  function WithKey(a: Attested, key: P256Key): Credential {
    Credential(a.rpIdHash, a.flags, a.signCount, a.aaguid, a.credentialId, key)
  }

  function Parse(b: bytes, decodeCbor: bytes -> Option<Decoded>): Option<Credential> {
    var a :- Split(b);
    var key :- CoseKey(decodeCbor(a.coseKey));
    Some(WithKey(a, key))
  }

  /** The bytes are the assembly of the credential's parts around the bytes of a COSE point. */
  ghost predicate IsCredential(b: bytes, decodeCbor: bytes -> Option<Decoded>, c: Credential, a: Attested, x: bytes,
                               y: bytes) {
    (exists key, extensions :: IsAttested(b, a, key, extensions))
    && IsCosePoint(decodeCbor(a.coseKey), x, y) && c == WithKey(a, CompressedOf(x, y))
  }

  /** The parser accepts exactly the credentials of P-256 points and returns their parts. */
  lemma ParseIsExact(b: bytes, decodeCbor: bytes -> Option<Decoded>, c: Credential)
    ensures Parse(b, decodeCbor) == Some(c) <==> exists a, x, y :: IsCredential(b, decodeCbor, c, a, x, y)
  {
    if Parse(b, decodeCbor) == Some(c) {
      var a := Split(b).value;
      SplitIsExact(b, a);
      CoseKeyIsExact(decodeCbor(a.coseKey), c.publicKey);
      var x, y :| IsCosePoint(decodeCbor(a.coseKey), x, y) && c.publicKey == CompressedOf(x, y);
      assert IsCredential(b, decodeCbor, c, a, x, y);
    }
    if a, x, y :| IsCredential(b, decodeCbor, c, a, x, y) {
      SplitIsExact(b, a);
      CoseKeyIsExact(decodeCbor(a.coseKey), c.publicKey);
    }
  }

  method ParseAttestedCredentialData(b: bytes, decodeCbor: bytes -> Option<Decoded>) returns (r: Option<Credential>)
    ensures r == Parse(b, decodeCbor)
  {
    if |b| < 37 { return None; }
    var rpIdHash, flags, signCount := b[0..32], b[32], FromBE(b[33..37]);
    if !HasCredential(flags) { return None; }
    var offset := 37;
    if offset + 18 > |b| { return None; }
    var aaguid := b[offset..offset + 16];
    offset := offset + 16;
    var credentialIdLength := BigEndian16(b, offset);
    offset := offset + 2;
    if offset + credentialIdLength > |b| { return None; }
    var credentialId := b[offset..offset + credentialIdLength];
    offset := offset + credentialIdLength;
    var end := SkipCborItem(b, offset);
    if end.None? { return None; }
    if !HasExtensions(flags) && end.value != |b| { return None; }
    var cosePublicKey := b[offset..end.value];
    assert Split(b) == Some(Attested(rpIdHash, flags, signCount, aaguid, credentialId, cosePublicKey));
    var key := CoseKey(decodeCbor(cosePublicKey));
    if key.None? { return None; }
    return Some(Credential(rpIdHash, flags, signCount, aaguid, credentialId, key.value));
  }
}

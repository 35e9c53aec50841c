// Reading a P-256 public key out of a SubjectPublicKeyInfo (section 2 of RFC 5480).
module Spki {
  import opened Basics
  import opened Der

  const EC_PUBLIC_KEY_OID: bytes := [0x2a, 0x86, 0x48, 0xce, 0x3d, 0x02, 0x01]
  const PRIME256V1_OID: bytes := [0x2a, 0x86, 0x48, 0xce, 0x3d, 0x03, 0x01, 0x07]

  datatype P256Key = P256Key(compressed: bytes, uncompressed: bytes)

  // ----- the encoder

  ghost function AlgorithmContent(): (r: bytes)
    ensures |r| == 19
  {
    EncodeElement(0x06, EC_PUBLIC_KEY_OID) + EncodeElement(0x06, PRIME256V1_OID)
  }

  ghost function BitString(x: bytes, y: bytes): (r: bytes)
    requires |x| == 32 && |y| == 32
    ensures |r| == 66
  {
    [0x00, 0x04] + (x + y)
  }

  ghost function SpkiContent(x: bytes, y: bytes): (r: bytes)
    requires |x| == 32 && |y| == 32
    ensures |r| == 89
  {
    EncodeElement(0x30, AlgorithmContent()) + EncodeElement(0x03, BitString(x, y))
  }

  ghost function EncodeSpki(x: bytes, y: bytes): bytes
    requires |x| == 32 && |y| == 32
  {
    EncodeElement(0x30, SpkiContent(x, y))
  }

  ghost predicate IsSpki(b: bytes, x: bytes, y: bytes) {
    |x| == 32 && |y| == 32 && b == EncodeSpki(x, y)
  }

  function CompressedOf(x: bytes, y: bytes): P256Key
    requires |x| == 32 && |y| == 32
  {
    P256Key([if y[31] % 2 == 0 then 0x02 else 0x03] + x, x + y)
  }

  /** What the bytes mean as a P-256 key, when they are the encoding of one. */
  ghost function KeyOf(b: bytes): Option<P256Key> {
    if exists x, y :: IsSpki(b, x, y) then
      var x, y :| IsSpki(b, x, y);
      Some(CompressedOf(x, y))
    else None
  }

  // ----- elements

  datatype ElementField = ElementField(valueOffset: nat, nextOffset: nat)

  ghost function ElementSpec(b: bytes, offset: nat, tag: byte): (r: Option<ElementField>)
    ensures r.Some? ==> offset < r.value.valueOffset <= r.value.nextOffset <= |b|
  {
    if offset >= |b| || b[offset] != tag then None
    else
      var field :- LengthSpec(b, offset + 1);
      if field.nextOffset + field.length > |b| then None
      else Some(ElementField(field.nextOffset, field.nextOffset + field.length))
  }

  method ReadDerElement(b: bytes, offset: nat, tag: byte) returns (r: Option<ElementField>)
    ensures r == ElementSpec(b, offset, tag)
  {
    if offset >= |b| { return None; }
    if b[offset] != tag { return None; }
    var field := ReadDerLength(b, offset + 1);
    if field.None? { return None; }
    var valueOffset := field.value.nextOffset;
    var nextOffset := valueOffset + field.value.length;
    if nextOffset > |b| { return None; }
    return Some(ElementField(valueOffset, nextOffset));
  }

  /** The reader finds an element that stands at `offset`, with its content and its end. */
  lemma ElementReads(b: bytes, offset: nat, tag: byte, content: bytes)
    requires |content| < MAX_LENGTH && At(b, offset, EncodeElement(tag, content))
    ensures ElementSpec(b, offset, tag).Some?
    ensures var f := ElementSpec(b, offset, tag).value;
            f.nextOffset - f.valueOffset == |content| && At(b, f.valueOffset, content)
            && b[f.valueOffset..f.nextOffset] == content
            && f.nextOffset == offset + |EncodeElement(tag, content)|
  {
    ElementParts(b, offset, tag, content);
    LengthSpecIs(b, offset + 1, |content|);
    var f := ElementSpec(b, offset, tag).value;
    AtSameLength(b, f.valueOffset, content, b[f.valueOffset..f.nextOffset]);
  }

  /** Conversely, an element the reader finds stands there with its content. */
  lemma ElementStands(b: bytes, offset: nat, tag: byte, content: bytes)
    requires |content| < MAX_LENGTH && ElementSpec(b, offset, tag).Some?
    requires var f := ElementSpec(b, offset, tag).value;
             f.nextOffset - f.valueOffset == |content| && At(b, f.valueOffset, content)
    ensures At(b, offset, EncodeElement(tag, content))
    ensures ElementSpec(b, offset, tag).value.nextOffset == offset + |EncodeElement(tag, content)|
  {
    LengthSpecStands(b, offset + 1);
    ElementParts(b, offset, tag, content);
  }

  /** The same, when the content is given as a slice. */
  lemma SliceElementStands(b: bytes, offset: nat, tag: byte, content: bytes)
    requires |content| < MAX_LENGTH && ElementSpec(b, offset, tag).Some?
    requires var f := ElementSpec(b, offset, tag).value; b[f.valueOffset..f.nextOffset] == content
    ensures At(b, offset, EncodeElement(tag, content))
    ensures ElementSpec(b, offset, tag).value.nextOffset == offset + |EncodeElement(tag, content)|
  {
    AtIsSlice(b, ElementSpec(b, offset, tag).value.valueOffset, content);
    ElementStands(b, offset, tag, content);
  }

  // ----- the walk through the structure

  datatype Walked = Walked(oid: bytes, curve: bytes, bits: bytes)

  /** The three leaf contents, when the elements nest and fill their parents exactly. */
  ghost function WalkSpki(b: bytes): Option<Walked> {
    var spki :- ElementSpec(b, 0, 0x30);
    if spki.nextOffset != |b| then None
    else
      var algorithm :- ElementSpec(b, spki.valueOffset, 0x30);
      var subject :- ElementSpec(b, algorithm.nextOffset, 0x03);
      if subject.nextOffset != spki.nextOffset then None
      else
        var oid :- ElementSpec(b, algorithm.valueOffset, 0x06);
        var curve :- ElementSpec(b, oid.nextOffset, 0x06);
        if curve.nextOffset != algorithm.nextOffset then None
        else Some(Walked(b[oid.valueOffset..oid.nextOffset], b[curve.valueOffset..curve.nextOffset],
                         b[subject.valueOffset..subject.nextOffset]))
  }

  predicate LeavesOk(w: Walked) {
    w.oid == EC_PUBLIC_KEY_OID && w.curve == PRIME256V1_OID
    && |w.bits| == 66 && w.bits[0] == 0x00 && w.bits[1] == 0x04
  }

  /** Two neighbouring elements are read one after the other. */
  lemma NeighboursRead(b: bytes, start: nat, tag: byte, first: bytes, tag': byte, second: bytes)
    requires |first| < MAX_LENGTH && |second| < MAX_LENGTH
    requires At(b, start, EncodeElement(tag, first) + EncodeElement(tag', second))
    ensures ElementSpec(b, start, tag).Some?
    ensures var f := ElementSpec(b, start, tag).value;
            At(b, f.valueOffset, first) && b[f.valueOffset..f.nextOffset] == first
            && ElementSpec(b, f.nextOffset, tag').Some?
            && var g := ElementSpec(b, f.nextOffset, tag').value;
               b[g.valueOffset..g.nextOffset] == second
               && g.nextOffset == start + |EncodeElement(tag, first)| + |EncodeElement(tag', second)|
  {
    AtParts(b, start, EncodeElement(tag, first), EncodeElement(tag', second));
    ElementReads(b, start, tag, first);
    ElementReads(b, ElementSpec(b, start, tag).value.nextOffset, tag', second);
  }

  lemma SpkiWalks(b: bytes, x: bytes, y: bytes)
    requires IsSpki(b, x, y)
    ensures WalkSpki(b) == Some(Walked(EC_PUBLIC_KEY_OID, PRIME256V1_OID, BitString(x, y)))
  {
    AtWhole(b, b);
    ElementReads(b, 0, 0x30, SpkiContent(x, y));
    var start := ElementSpec(b, 0, 0x30).value.valueOffset;
    NeighboursRead(b, start, 0x30, AlgorithmContent(), 0x03, BitString(x, y));
    NeighboursRead(b, ElementSpec(b, start, 0x30).value.valueOffset, 0x06, EC_PUBLIC_KEY_OID, 0x06, PRIME256V1_OID);
  }

  /** Two neighbouring elements with the given contents. */
  lemma NeighboursStand(b: bytes, start: nat, tag: byte, first: bytes, second: bytes)
    requires |first| < MAX_LENGTH && |second| < MAX_LENGTH
    requires ElementSpec(b, start, tag).Some?
    requires var f := ElementSpec(b, start, tag).value;
             b[f.valueOffset..f.nextOffset] == first
             && ElementSpec(b, f.nextOffset, tag).Some?
             && var g := ElementSpec(b, f.nextOffset, tag).value; b[g.valueOffset..g.nextOffset] == second
    ensures At(b, start, EncodeElement(tag, first) + EncodeElement(tag, second))
  {
    var f := ElementSpec(b, start, tag).value;
    SliceElementStands(b, start, tag, first);
    SliceElementStands(b, f.nextOffset, tag, second);
    AtParts(b, start, EncodeElement(tag, first), EncodeElement(tag, second));
  }

  lemma WalkedAlgorithm(b: bytes)
    requires WalkSpki(b).Some? && LeavesOk(WalkSpki(b).value)
    ensures At(b, ElementSpec(b, 0, 0x30).value.valueOffset, EncodeElement(0x30, AlgorithmContent()))
  {
    var start := ElementSpec(b, 0, 0x30).value.valueOffset;
    NeighboursStand(b, ElementSpec(b, start, 0x30).value.valueOffset, 0x06, EC_PUBLIC_KEY_OID, PRIME256V1_OID);
    ElementStands(b, start, 0x30, AlgorithmContent());
  }

  lemma BitStringOfParts(bits: bytes)
    requires |bits| == 66 && bits[0] == 0x00 && bits[1] == 0x04
    ensures bits == BitString(bits[2..34], bits[34..66])
  {
  }

  lemma WalkedIsSpki(b: bytes)
    requires WalkSpki(b).Some? && LeavesOk(WalkSpki(b).value)
    ensures var bits := WalkSpki(b).value.bits; IsSpki(b, bits[2..34], bits[34..66])
  {
    var spki := ElementSpec(b, 0, 0x30).value;
    var algorithm := ElementSpec(b, spki.valueOffset, 0x30).value;
    var bits := WalkSpki(b).value.bits;
    var x, y := bits[2..34], bits[34..66];
    BitStringOfParts(bits);
    WalkedAlgorithm(b);
    ElementReads(b, spki.valueOffset, 0x30, AlgorithmContent());
    ElementStands(b, algorithm.nextOffset, 0x03, bits);
    AtParts(b, spki.valueOffset, EncodeElement(0x30, AlgorithmContent()), EncodeElement(0x03, bits));
    WholeElement(b, SpkiContent(x, y));
  }

  lemma WholeElement(b: bytes, content: bytes)
    requires |content| < MAX_LENGTH
    requires ElementSpec(b, 0, 0x30).Some? && ElementSpec(b, 0, 0x30).value.nextOffset == |b|
    requires |b| - ElementSpec(b, 0, 0x30).value.valueOffset == |content|
    requires At(b, ElementSpec(b, 0, 0x30).value.valueOffset, content)
    ensures b == EncodeElement(0x30, content)
  {
    ElementStands(b, 0, 0x30, content);
    AtSameLength(b, 0, b, EncodeElement(0x30, content));
  }

  lemma BitStringParts(x: bytes, y: bytes)
    requires |x| == 32 && |y| == 32
    ensures BitString(x, y)[0] == 0x00 && BitString(x, y)[1] == 0x04
    ensures BitString(x, y)[2..34] == x && BitString(x, y)[34..66] == y
  {
  }

  lemma SpkiLeaves(b: bytes, x: bytes, y: bytes)
    requires IsSpki(b, x, y)
    ensures WalkSpki(b).Some? && LeavesOk(WalkSpki(b).value)
    ensures WalkSpki(b).value.bits[2..34] == x && WalkSpki(b).value.bits[34..66] == y
  {
    SpkiWalks(b, x, y);
    BitStringParts(x, y);
    var w := WalkSpki(b).value;
    assert w.bits == BitString(x, y);
  }

  lemma SpkiKey(b: bytes, x: bytes, y: bytes)
    requires IsSpki(b, x, y)
    ensures WalkSpki(b).Some? && LeavesOk(WalkSpki(b).value)
    ensures KeyOf(b) == Some(CompressedOf(WalkSpki(b).value.bits[2..34], WalkSpki(b).value.bits[34..66]))
  {
    var x', y' :| IsSpki(b, x', y') && KeyOf(b) == Some(CompressedOf(x', y'));
    SpkiLeaves(b, x', y');
  }

  lemma NoKey(b: bytes)
    requires !(WalkSpki(b).Some? && LeavesOk(WalkSpki(b).value))
    ensures KeyOf(b).None?
  {
    if x, y :| IsSpki(b, x, y) { SpkiLeaves(b, x, y); }
  }

  /** The walk and the leaf tests accept exactly the encodings of P-256 points. */
  lemma WalkDecidesSpki(b: bytes)
    ensures KeyOf(b) ==
              if WalkSpki(b).Some? && LeavesOk(WalkSpki(b).value)
              then Some(CompressedOf(WalkSpki(b).value.bits[2..34], WalkSpki(b).value.bits[34..66]))
              else None
  {
    if WalkSpki(b).Some? && LeavesOk(WalkSpki(b).value) {
      WalkedIsSpki(b);
      SpkiKey(b, WalkSpki(b).value.bits[2..34], WalkSpki(b).value.bits[34..66]);
    } else {
      NoKey(b);
    }
  }

  /** Encoding inverts: every coordinate pair is read back, compressed by the parity of y. */
  lemma KeyOfEncoding(x: bytes, y: bytes)
    requires |x| == 32 && |y| == 32
    ensures KeyOf(EncodeSpki(x, y)) == Some(CompressedOf(x, y))
  {
    assert IsSpki(EncodeSpki(x, y), x, y);
    SpkiLeaves(EncodeSpki(x, y), x, y);
    WalkDecidesSpki(EncodeSpki(x, y));
  }

  method BytesEqual(left: bytes, right: bytes) returns (equal: bool)
    ensures equal <==> left == right
  {
    if |left| != |right| { return false; }
    for i := 0 to |left|
      invariant left[..i] == right[..i]
    {
      if left[i] != right[i] { return false; }
    }
    return true;
  }

  method DecodeSpkiP256PublicKey(b: bytes) returns (r: Option<P256Key>)
    ensures r == KeyOf(b)
  {
    WalkDecidesSpki(b);
    var spki := ReadDerElement(b, 0, 0x30);
    if spki.None? { return None; }
    if spki.value.nextOffset != |b| { return None; }
    var algorithm := ReadDerElement(b, spki.value.valueOffset, 0x30);
    if algorithm.None? { return None; }
    var subject := ReadDerElement(b, algorithm.value.nextOffset, 0x03);
    if subject.None? { return None; }
    if subject.value.nextOffset != spki.value.nextOffset { return None; }
    var oid := ReadDerElement(b, algorithm.value.valueOffset, 0x06);
    if oid.None? { return None; }
    var curve := ReadDerElement(b, oid.value.nextOffset, 0x06);
    if curve.None? { return None; }
    if curve.value.nextOffset != algorithm.value.nextOffset { return None; }
    var leaves := Walked(b[oid.value.valueOffset..oid.value.nextOffset],
                         b[curve.value.valueOffset..curve.value.nextOffset],
                         b[subject.value.valueOffset..subject.value.nextOffset]);
    assert WalkSpki(b) == Some(leaves);
    var sameOid := BytesEqual(leaves.oid, EC_PUBLIC_KEY_OID);
    if !sameOid { return None; }
    var sameCurve := BytesEqual(leaves.curve, PRIME256V1_OID);
    if !sameCurve { return None; }
    r := PointOf(leaves.bits);
  }

  /** The checks on the BIT STRING: no unused bits, a 65-byte uncompressed point. */
  function PointOf(bits: bytes): (r: Option<P256Key>)
    ensures r == if |bits| == 66 && bits[0] == 0x00 && bits[1] == 0x04
                 then Some(CompressedOf(bits[2..34], bits[34..66])) else None
  {
    if |bits| == 0 || bits[0] != 0x00 then None
    else
      var point := bits[1..];
      if |point| != 65 || point[0] != 0x04 then None
      else
        var uncompressed := point[1..];
        var x, y := uncompressed[..32], uncompressed[32..64];
        assert bits[2..34] == x && bits[34..66] == y && uncompressed == x + y;
        var prefix := if y[31] % 2 == 0 then 0x02 else 0x03;
        Some(P256Key([prefix] + x, uncompressed))
  }
}

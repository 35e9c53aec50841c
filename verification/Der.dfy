// The strict DER reader of the TypeScript SDK: lengths, integers and ECDSA signatures
// (sections 8.3 and 10.1 of ITU-T X.690, section 2.2.3 of RFC 3279).
module Der {
  import opened Basics
  import opened Endian

  const P256_ORDER: nat := 0xffffffff00000000ffffffffffffffffbce6faada7179e84f3b9cac2fc632551
  const P256_HALF_ORDER: nat := 0x7fffffff800000007fffffffffffffffde737d56d38bcf4279dce5617e3192a8
  const MAX_LENGTH: nat := 0x8000_0000

  predicate InRange(v: int) { 1 <= v < P256_ORDER }

  // ----- the canonical encoder, the reference the reader is measured against

  function EncodeLength(n: nat): (r: bytes)
    requires n < MAX_LENGTH
    ensures |r| > 0
  {
    if n < 0x80 then [n]
    else
      LongLength(n);
      [0x80 + |MinBE(n)|] + MinBE(n)
  }

  lemma {:induction false} LongLength(n: nat)
    requires n < MAX_LENGTH
    ensures |MinBE(n)| <= 4
  {
    Widths();
    MinBELength(n, 4);
  }

  /** The content octets of a nonnegative INTEGER. */
  function IntegerContent(v: nat): (r: bytes)
    ensures |r| > 0
  {
    if MinBE(v)[0] >= 0x80 then [0] + MinBE(v) else MinBE(v)
  }

  function EncodeElement(tag: byte, content: bytes): (r: bytes)
    requires |content| < MAX_LENGTH
    ensures |r| > 0
  {
    [tag] + EncodeLength(|content|) + content
  }

  lemma ContentLength(v: nat)
    requires v < P256_ORDER
    ensures |IntegerContent(v)| <= 33
  {
    Pow256At32();
    MinBELength(v, 32);
  }

  lemma Pow256At32()
    ensures Pow256(32) == 0x1_0000000000000000_0000000000000000_0000000000000000_0000000000000000
    ensures P256_ORDER < Pow256(32)
    ensures forall k :: k >= 33 ==> Pow256(k) >= Pow256(33) > P256_ORDER
  {
    Widths();
    Pow256Step(8); Pow256Step(16); Pow256Step(24);
    assert Pow256(33) == 256 * Pow256(32);
    forall k | k >= 33 ensures Pow256(k) >= Pow256(33) { Pow256Grows(33, k); }
  }

  lemma Pow256Step(n: nat)
    ensures Pow256(n + 8) == 0x1_0000_0000_0000_0000 * Pow256(n)
  {
    assert Pow256(n + 2) == 0x1_0000 * Pow256(n);
    assert Pow256(n + 4) == 0x1_0000 * Pow256(n + 2);
    assert Pow256(n + 6) == 0x1_0000 * Pow256(n + 4);
    assert Pow256(n + 8) == 0x1_0000 * Pow256(n + 6);
  }

  lemma {:induction false} Pow256Grows(a: nat, b: nat)
    requires a <= b
    ensures Pow256(a) <= Pow256(b)
    decreases b
  {
    if a < b { Pow256Grows(a, b - 1); }
  }

  function EncodeInteger(v: nat): (r: bytes)
    requires v < P256_ORDER
    ensures |r| > 0
  {
    ContentLength(v);
    EncodeElement(0x02, IntegerContent(v))
  }

  lemma IntegerLength(v: nat)
    requires v < P256_ORDER
    ensures |EncodeInteger(v)| <= 35
  {
    ContentLength(v);
  }

  /** ECDSA-Sig-Value ::= SEQUENCE { r INTEGER, s INTEGER } */
  function EncodeSignature(r: nat, s: nat): bytes
    requires InRange(r) && InRange(s)
  {
    IntegerLength(r); IntegerLength(s);
    EncodeElement(0x30, EncodeInteger(r) + EncodeInteger(s))
  }

  ghost predicate LengthAt(b: bytes, offset: nat, n: int) {
    0 <= n < MAX_LENGTH && At(b, offset, EncodeLength(n))
  }

  ghost predicate IntegerAt(b: bytes, offset: nat, v: int) {
    InRange(v) && At(b, offset, EncodeInteger(v))
  }

  /** At most one canonical length stands at a given place. */
  lemma LengthUnique(b: bytes, offset: nat, m: int, n: int)
    requires LengthAt(b, offset, m) && LengthAt(b, offset, n)
    ensures m == n
  {
    AtFirst(b, offset, EncodeLength(m));
    AtFirst(b, offset, EncodeLength(n));
    AtSameLength(b, offset, EncodeLength(m), EncodeLength(n));
    if m >= 0x80 {
      Cut([0x80 + |MinBE(m)|], MinBE(m), [0x80 + |MinBE(n)|], MinBE(n));
      ReadsBackMinBE(m); ReadsBackMinBE(n);
    }
  }

  // ----- 32-bit integer arithmetic of JavaScript's bitwise operators

  function ToInt32(x: int): int {
    var m := x % 0x1_0000_0000;
    if m >= 0x8000_0000 then m - 0x1_0000_0000 else m
  }

  /** `(length << 8) | next` on 32-bit integers. */
  function ShiftIn(length: int, next: byte): int {
    ToInt32(length * 256 + next)
  }

  // ----- the reader

  datatype LengthField = LengthField(length: nat, nextOffset: nat)
  datatype IntegerField = IntegerField(value: nat, nextOffset: nat)

  /** The canonical length field at `offset`, if there is one. */
  ghost function LengthSpec(b: bytes, offset: nat): Option<LengthField> {
    if exists n :: LengthAt(b, offset, n) then
      var n :| LengthAt(b, offset, n);
      Some(LengthField(n, offset + |EncodeLength(n)|))
    else None
  }

  lemma LengthSpecIs(b: bytes, offset: nat, n: int)
    requires LengthAt(b, offset, n)
    ensures LengthSpec(b, offset) == Some(LengthField(n, offset + |EncodeLength(n)|))
  {
    var m :| LengthAt(b, offset, m) && LengthSpec(b, offset) == Some(LengthField(m, offset + |EncodeLength(m)|));
    LengthUnique(b, offset, m, n);
  }

  /** A length that is found stands there. */
  lemma LengthSpecStands(b: bytes, offset: nat)
    requires LengthSpec(b, offset).Some?
    ensures var field := LengthSpec(b, offset).value;
            LengthAt(b, offset, field.length) && field.nextOffset == offset + |EncodeLength(field.length)|
  {
    var n :| LengthAt(b, offset, n) && LengthSpec(b, offset) == Some(LengthField(n, offset + |EncodeLength(n)|));
  }

  /** The canonical integer in [1, n-1] at `offset`, if there is one. */
  ghost function IntegerSpec(b: bytes, offset: nat): Option<IntegerField> {
    if exists v :: IntegerAt(b, offset, v) then
      var v :| IntegerAt(b, offset, v);
      Some(IntegerField(v, offset + |EncodeInteger(v)|))
    else None
  }

  /** An integer that is found stands there. */
  lemma IntegerSpecStands(b: bytes, offset: nat)
    requires IntegerSpec(b, offset).Some?
    ensures var field := IntegerSpec(b, offset).value;
            IntegerAt(b, offset, field.value) && field.nextOffset == offset + |EncodeInteger(field.value)|
  {
    var v :| IntegerAt(b, offset, v) && IntegerSpec(b, offset) == Some(IntegerField(v, offset + |EncodeInteger(v)|));
  }

  lemma IntegerSpecIs(b: bytes, offset: nat, v: int)
    requires IntegerAt(b, offset, v)
    ensures IntegerSpec(b, offset) == Some(IntegerField(v, offset + |EncodeInteger(v)|))
  {
    var w :| IntegerAt(b, offset, w) && IntegerSpec(b, offset) == Some(IntegerField(w, offset + |EncodeInteger(w)|));
    IntegerUnique(b, offset, v, w);
  }

  /** The big-endian value of b[lo..hi]. */
  function RangeBE(b: bytes, lo: nat, hi: nat): nat
    requires lo <= hi <= |b|
    decreases hi
  {
    if lo == hi then 0 else RangeBE(b, lo, hi - 1) * 256 + b[hi - 1]
  }

  lemma {:induction false} RangeIsSlice(b: bytes, lo: nat, hi: nat)
    requires lo <= hi <= |b|
    ensures RangeBE(b, lo, hi) == FromBE(b[lo..hi])
    decreases hi
  {
    if lo < hi {
      RangeIsSlice(b, lo, hi - 1);
      assert b[lo..hi] == b[lo..hi - 1] + [b[hi - 1]];
      FromBEAppend(b[lo..hi - 1], b[hi - 1]);
    }
  }

  lemma {:induction false} RangeBounds(b: bytes, lo: nat, hi: nat)
    requires lo <= hi <= |b| && hi <= lo + 4
    ensures RangeBE(b, lo, hi) < 0x1_0000_0000
    ensures hi < lo + 4 ==> RangeBE(b, lo, hi) < 0x100_0000
  {
    RangeIsSlice(b, lo, hi);
    AtMostFourBytes(b[lo..hi]);
  }

  method ReadDerLength(b: bytes, offset: nat) returns (r: Option<LengthField>)
    ensures r == LengthSpec(b, offset)
  {
    if offset >= |b| { return None; }
    var first := b[offset];
    if first < 0x80 {
      ShortForm(b, offset);
      return Some(LengthField(first, offset + 1));
    }
    var lengthBytes := first - 0x80;
    LongFormSpec(b, offset, lengthBytes);
    if lengthBytes == 0 || lengthBytes > 4 { return None; }
    if offset + 1 + lengthBytes > |b| { return None; }
    if b[offset + 1] == 0 { return None; }
    var length := ShiftTogether(b, offset + 1, lengthBytes);
    RangeBounds(b, offset + 1, offset + 1 + lengthBytes);
    if length < 0x80 { return None; }
    return Some(LengthField(length, offset + 1 + lengthBytes));
  }

  lemma ShortForm(b: bytes, offset: nat)
    requires offset < |b| && b[offset] < 0x80
    ensures LengthSpec(b, offset) == Some(LengthField(b[offset], offset + 1))
  {
    LengthSpecIs(b, offset, b[offset]);
  }

  /** The loop over the octets of a long form; only the fourth shift can reach the sign bit. */
  method ShiftTogether(b: bytes, start: nat, lengthBytes: nat) returns (length: int)
    requires lengthBytes <= 4 && start + lengthBytes <= |b|
    ensures length == Signed(RangeBE(b, start, start + lengthBytes))
  {
    length := 0;
    var i := 0;
    while i < lengthBytes
      invariant 0 <= i <= lengthBytes
      invariant length == Signed(RangeBE(b, start, start + i))
    {
      RangeStep(b, start, i);
      length := ShiftIn(length, b[start + i]);
      i := i + 1;
    }
  }

  lemma RangeStep(b: bytes, start: nat, i: nat)
    requires i < 4 && start + i + 1 <= |b|
    ensures ShiftIn(Signed(RangeBE(b, start, start + i)), b[start + i]) == Signed(RangeBE(b, start, start + (i + 1)))
  {
    RangeBounds(b, start, start + i);
    ShiftInValue(RangeBE(b, start, start + i), b[start + i]);
  }

  /** The signed reading of an unsigned 32-bit value. */
  function Signed(x: int): int {
    if x < MAX_LENGTH then x else x - 0x1_0000_0000
  }

  lemma ShiftInValue(x: nat, next: byte)
    requires x < 0x100_0000
    ensures ShiftIn(x, next) == Signed(x * 256 + next)
  {
  }

  lemma {:induction false} AtMostFourBytes(b: bytes)
    requires |b| <= 4
    ensures FromBE(b) < 0x1_0000_0000
    ensures |b| < 4 ==> FromBE(b) < 0x100_0000
  {
    WritesBackBE(b);
    Widths();
    if |b| < 4 { SmallPower(|b|); }
  }

  /** What stands at `offset` when the first octet announces a long form with k further octets. */
  lemma LongFormSpec(b: bytes, offset: nat, k: nat)
    requires offset < |b| && b[offset] == 0x80 + k
    ensures LengthSpec(b, offset) ==
              if 1 <= k <= 4 && offset + 1 + k <= |b| && b[offset + 1] != 0
                 && 0x80 <= RangeBE(b, offset + 1, offset + 1 + k) < MAX_LENGTH
              then Some(LengthField(RangeBE(b, offset + 1, offset + 1 + k), offset + 1 + k))
              else None
  {
    if n :| LengthAt(b, offset, n) {
      LengthSpecIs(b, offset, n);
      LongFormShape(b, offset, k, n);
    }
    if 1 <= k <= 4 && offset + 1 + k <= |b| && b[offset + 1] != 0 {
      if 0x80 <= RangeBE(b, offset + 1, offset + 1 + k) < MAX_LENGTH { LongFormHolds(b, offset, k); }
    }
  }

  lemma LongFormHolds(b: bytes, offset: nat, k: nat)
    requires offset + 1 + k <= |b| && b[offset] == 0x80 + k && k > 0 && b[offset + 1] != 0
    requires 0x80 <= RangeBE(b, offset + 1, offset + 1 + k) < MAX_LENGTH
    ensures LengthSpec(b, offset) == Some(LengthField(RangeBE(b, offset + 1, offset + 1 + k), offset + 1 + k))
  {
    var field := b[offset + 1..offset + 1 + k];
    RangeIsSlice(b, offset + 1, offset + 1 + k);
    WritesBackMinBE(field);
    var n := FromBE(field);
    assert MinBE(n) == field;
    AtParts(b, offset, [0x80 + k], field);
    LengthSpecIs(b, offset, n);
  }

  lemma {:induction false} SmallPower(i: nat)
    requires i < 4
    ensures Pow256(i) <= 0x100_0000
  {
    Widths();
    Pow256Grows(i, 3);
  }

  /** The shape of a long-form length whose first octet counts `k` further octets. */
  ghost predicate LongForm(b: bytes, offset: nat, k: int, n: int) {
    1 <= k <= 4 && 0x80 <= n < MAX_LENGTH && offset + 1 + k <= |b|
    && b[offset + 1] != 0
    && RangeBE(b, offset + 1, offset + 1 + k) == n
  }

  lemma {:induction false} LongLengthStands(b: bytes, offset: nat, n: int)
    requires LengthAt(b, offset, n) && n >= 0x80
    ensures |MinBE(n)| <= 4 && offset < |b| && b[offset] == 0x80 + |MinBE(n)| && At(b, offset + 1, MinBE(n))
  {
    LongLength(n);
    AtParts(b, offset, [0x80 + |MinBE(n)|], MinBE(n));
    AtFirst(b, offset, [0x80 + |MinBE(n)|]);
  }

  lemma ShortLengthStands(b: bytes, offset: nat, n: int)
    requires LengthAt(b, offset, n) && n < 0x80
    ensures offset < |b| && b[offset] == n
  {
    AtFirst(b, offset, [n]);
  }

  lemma MinimalFieldShape(b: bytes, start: nat, k: nat, n: nat)
    requires n > 0 && k == |MinBE(n)| && At(b, start, MinBE(n))
    ensures start + k <= |b| && b[start] != 0 && RangeBE(b, start, start + k) == n
  {
    ReadsBackMinBE(n);
    AtFirst(b, start, MinBE(n));
    AtIsSlice(b, start, MinBE(n));
    RangeIsSlice(b, start, start + k);
  }

  lemma LongFormShape(b: bytes, offset: nat, k: int, n: int)
    requires offset < |b| && b[offset] == 0x80 + k && k >= 0
    requires LengthAt(b, offset, n)
    ensures LongForm(b, offset, k, n)
  {
    if n < 0x80 {
      ShortLengthStands(b, offset, n);
    } else {
      LongLengthStands(b, offset, n);
      MinimalFieldShape(b, offset + 1, k, n);
    }
  }

  predicate CanonicalContent(c: bytes) {
    |c| > 0 && c[0] < 0x80 && (|c| > 1 && c[0] == 0 ==> c[1] >= 0x80)
  }

  /** The byte test of the SDK admits exactly the minimal nonnegative contents. */
  lemma {:induction false} CanonicalIffMinimal(c: bytes)
    requires |c| > 0
    ensures CanonicalContent(c) <==> c == IntegerContent(FromBE(c))
  {
    if CanonicalContent(c) {
      if |c| > 1 && c[0] == 0 {
        LeadingZero(c);
        WritesBackMinBE(c[1..]);
        assert c == [0] + c[1..];
      } else {
        WritesBackMinBE(c);
      }
    } else if c == IntegerContent(FromBE(c)) {
      MinimalIsCanonical(FromBE(c));
    }
  }

  lemma MinimalIsCanonical(v: nat)
    ensures CanonicalContent(IntegerContent(v))
  {
    ReadsBackMinBE(v);
    if MinBE(v)[0] < 0x80 && MinBE(v)[0] == 0 { assert MinBE(v) == [0]; }
  }

  lemma {:induction false} LeadingZero(c: bytes)
    requires |c| > 0 && c[0] == 0
    ensures FromBE(c) == FromBE(c[1..])
  {
    if |c| > 1 {
      LeadingZero(c[..|c| - 1]);
      assert c[1..][..|c| - 2] == c[..|c| - 1][1..];
    }
  }

  // ----- hexadecimal round trips through strings of nibbles

  type nibble = x: int | 0 <= x < 16
  type hex = seq<nibble>

  function BytesToHex(b: bytes): hex {
    if b == [] then [] else BytesToHex(b[..|b| - 1]) + [b[|b| - 1] / 16, b[|b| - 1] % 16]
  }

  /** `BigInt("0x" + h)`. */
  function ParseHex(h: hex): nat {
    if h == [] then 0 else ParseHex(h[..|h| - 1]) * 16 + h[|h| - 1]
  }

  lemma {:induction false} ParseHexAppend(h: hex, d: nibble)
    ensures ParseHex(h + [d]) == ParseHex(h) * 16 + d
  {
    assert (h + [d])[..|h|] == h;
  }

  lemma {:induction false} HexOfBytesReads(b: bytes)
    ensures ParseHex(BytesToHex(b)) == FromBE(b)
  {
    if b != [] {
      var h, x := BytesToHex(b[..|b| - 1]), b[|b| - 1];
      HexOfBytesReads(b[..|b| - 1]);
      ParseHexAppend(h, x / 16);
      ParseHexAppend(h + [x / 16], x % 16);
      assert h + [x / 16] + [x % 16] == h + [x / 16, x % 16];
    }
  }

  /** `value.toString(16)`. */
  function HexOf(v: nat): hex {
    if v < 16 then [v] else HexOf(v / 16) + [v % 16]
  }

  function PadStart(h: hex, width: nat): (r: hex)
    ensures |r| == if |h| < width then width else |h|
  {
    if |h| < width then seq(width - |h|, _ => 0 as nibble) + h else h
  }

  /** Digits taken two at a time. */
  function Pairs(h: hex): bytes
    requires |h| % 2 == 0
  {
    if h == [] then []
    else
      var high: int, low: int := h[|h| - 2], h[|h| - 1];
      Pairs(h[..|h| - 2]) + [high * 16 + low]
  }

  function FixedHex(v: nat, width: nat): (r: hex)
    ensures |r| == width
    decreases width
  {
    if width == 0 then [] else FixedHex(v / 16, width - 1) + [v % 16]
  }

  function Pow16(n: nat): nat {
    if n == 0 then 1 else 16 * Pow16(n - 1)
  }

  lemma {:induction false} FixedHexOfZero(width: nat)
    ensures FixedHex(0, width) == seq(width, _ => 0 as nibble)
  {
    if width > 0 { FixedHexOfZero(width - 1); }
  }

  lemma {:induction false} PaddedIsFixed(v: nat, width: nat)
    requires v < Pow16(width) && width > 0
    ensures |HexOf(v)| <= width
    ensures PadStart(HexOf(v), width) == FixedHex(v, width)
  {
    if v < 16 {
      FixedHexOfZero(width - 1);
    } else {
      assert width > 1;
      PaddedIsFixed(v / 16, width - 1);
    }
  }

  lemma {:induction false} PairsOfFixed(v: nat, n: nat)
    ensures Pairs(FixedHex(v, 2 * n)) == BE(v, n)
  {
    if n > 0 {
      PairsOfFixed(v / 256, n - 1);
      assert FixedHex(v, 2 * n) == FixedHex(v / 16, 2 * n - 1) + [v % 16];
      assert FixedHex(v / 16, 2 * n - 1) == FixedHex(v / 16 / 16, 2 * n - 2) + [v / 16 % 16];
      assert v / 16 / 16 == v / 256;
      assert FixedHex(v, 2 * n)[..2 * n - 2] == FixedHex(v / 256, 2 * (n - 1));
    }
  }

  lemma {:induction false} Pow16IsPow256(n: nat)
    ensures Pow16(2 * n) == Pow256(n)
  {
    if n > 0 {
      Pow16IsPow256(n - 1);
      assert Pow16(2 * n) == 16 * Pow16(2 * n - 1);
    }
  }

  /** The 32-byte form of a signature scalar. */
  function BigIntTo32Bytes(v: nat): (r: Option<bytes>)
    ensures r == if v < P256_ORDER then Some(BE(v, 32)) else None
  {
    if v >= P256_ORDER then None
    else
      var h := PadStart(HexOf(v), 64);
      Pow256At32(); Pow16IsPow256(32);
      PaddedIsFixed(v, 64);
      PairsOfFixed(v, 32);
      if |h| <= 64 then Some(Pairs(h)) else None
  }

  method DerIntegerToBigInt(b: bytes) returns (v: nat)
    ensures v == FromBE(b)
  {
    var normalized := b;
    while |normalized| > 0 && normalized[0] == 0
      invariant FromBE(normalized) == FromBE(b)
    {
      LeadingZero(normalized);
      normalized := normalized[1..];
    }
    var h := BytesToHex(normalized);
    HexOfBytesReads(normalized);
    v := ParseHex(h);
  }

  /** A content that reads as an integer in range, at the place a length field announces. */
  predicate ContentOk(b: bytes, field: LengthField) {
    field.length > 0 && field.nextOffset + field.length <= |b|
    && var content := b[field.nextOffset..field.nextOffset + field.length];
    CanonicalContent(content) && InRange(FromBE(content))
  }

  /** The tests the reader makes, one after the other, decide what stands at `offset`. */
  lemma IntegerDecision(b: bytes, offset: nat)
    ensures IntegerSpec(b, offset) ==
              if offset < |b| && b[offset] == 0x02 && LengthSpec(b, offset + 1).Some?
                 && ContentOk(b, LengthSpec(b, offset + 1).value)
              then var field := LengthSpec(b, offset + 1).value;
                   var next := field.nextOffset + field.length;
                   Some(IntegerField(FromBE(b[field.nextOffset..next]), next))
              else None
  {
    if v :| IntegerAt(b, offset, v) {
      IntegerIsOk(b, offset, v);
    } else if offset < |b| && b[offset] == 0x02 && LengthSpec(b, offset + 1).Some?
              && ContentOk(b, LengthSpec(b, offset + 1).value) {
      OkIsInteger(b, offset, LengthSpec(b, offset + 1).value);
    }
  }

  lemma {:induction false} ContentIsOk(content: bytes, v: nat)
    requires InRange(v) && content == IntegerContent(v)
    ensures CanonicalContent(content) && FromBE(content) == v
  {
    ContentReads(v);
    MinimalIsCanonical(v);
  }

  lemma ShapeIsOk(b: bytes, offset: nat, field: LengthField, v: int)
    requires IntegerShape(b, offset, field, v)
    ensures ContentOk(b, field) && FromBE(b[field.nextOffset..field.nextOffset + field.length]) == v
  {
    AtIsSlice(b, field.nextOffset, IntegerContent(v));
    ContentIsOk(b[field.nextOffset..field.nextOffset + field.length], v);
  }

  lemma IntegerIsOk(b: bytes, offset: nat, v: int)
    requires IntegerAt(b, offset, v)
    ensures offset < |b| && b[offset] == 0x02 && LengthSpec(b, offset + 1).Some?
    ensures var field := LengthSpec(b, offset + 1).value;
            var next := field.nextOffset + field.length;
            ContentOk(b, field)
            && IntegerSpec(b, offset) == Some(IntegerField(FromBE(b[field.nextOffset..next]), next))
  {
    IntegerEnds(b, offset, v);
    ShapeIsOk(b, offset, LengthSpec(b, offset + 1).value, v);
  }

  lemma IntegerEnds(b: bytes, offset: nat, v: int)
    requires IntegerAt(b, offset, v)
    ensures LengthSpec(b, offset + 1).Some?
    ensures var field := LengthSpec(b, offset + 1).value;
            IntegerShape(b, offset, field, v)
            && IntegerSpec(b, offset) == Some(IntegerField(v, field.nextOffset + field.length))
  {
    IntegerAtShape(b, offset, v);
    IntegerSpecIs(b, offset, v);
  }

  lemma {:induction false} CanonicalElement(b: bytes, offset: nat, content: bytes)
    requires offset < |b| && b[offset] == 0x02 && LengthAt(b, offset + 1, |content|)
    requires At(b, offset + 1 + |EncodeLength(|content|)|, content)
    requires CanonicalContent(content) && InRange(FromBE(content))
    ensures IntegerAt(b, offset, FromBE(content))
  {
    CanonicalIffMinimal(content);
    ElementParts(b, offset, 0x02, content);
  }

  lemma OkIsInteger(b: bytes, offset: nat, field: LengthField)
    requires offset < |b| && b[offset] == 0x02 && LengthSpec(b, offset + 1) == Some(field)
    requires ContentOk(b, field)
    ensures IntegerAt(b, offset, FromBE(b[field.nextOffset..field.nextOffset + field.length]))
  {
    var content := b[field.nextOffset..field.nextOffset + field.length];
    LengthSpecStands(b, offset + 1);
    AtIsSlice(b, field.nextOffset, content);
    CanonicalElement(b, offset, content);
  }

  /** The value of a content that is canonical and in range. */
  method ReadContent(content: bytes) returns (value: Option<nat>)
    requires |content| > 0
    ensures value == if CanonicalContent(content) && InRange(FromBE(content)) then Some(FromBE(content)) else None
  {
    if !CanonicalContent(content) { return None; }
    var v := DerIntegerToBigInt(content);
    if !(1 <= v < P256_ORDER) { return None; }
    value := Some(v);
  }

  method ReadDerInteger(b: bytes, offset: nat) returns (r: Option<IntegerField>)
    ensures r == IntegerSpec(b, offset)
  {
    IntegerDecision(b, offset);
    if offset >= |b| { return None; }
    if b[offset] != 0x02 { return None; }
    var field := ReadDerLength(b, offset + 1);
    if field.None? { return None; }
    var start, length := field.value.nextOffset, field.value.length;
    if length == 0 { return None; }
    if start + length > |b| { return None; }
    var value := ReadContent(b[start..start + length]);
    if value.None? { return None; }
    return Some(IntegerField(value.value, start + length));
  }

  /** What an integer standing at `offset` says about its tag, length field and content. */
  ghost predicate IntegerShape(b: bytes, offset: nat, field: LengthField, v: int) {
    InRange(v) && offset < |b| && b[offset] == 0x02
    && At(b, field.nextOffset, IntegerContent(v))
    && field.length == |IntegerContent(v)|
  }

  lemma ContentReads(v: nat)
    ensures FromBE(IntegerContent(v)) == v
  {
    ReadsBackMinBE(v);
    if MinBE(v)[0] >= 0x80 {
      LeadingZero(IntegerContent(v));
      assert IntegerContent(v)[1..] == MinBE(v);
    }
  }

  lemma IntegerAtShape(b: bytes, offset: nat, v: int)
    requires IntegerAt(b, offset, v)
    ensures LengthSpec(b, offset + 1).Some?
    ensures IntegerShape(b, offset, LengthSpec(b, offset + 1).value, v)
    ensures |EncodeInteger(v)| == LengthSpec(b, offset + 1).value.nextOffset + |IntegerContent(v)| - offset
  {
    ContentLength(v);
    ElementParts(b, offset, 0x02, IntegerContent(v));
    LengthSpecIs(b, offset + 1, |IntegerContent(v)|);
  }

  lemma ElementParts(b: bytes, offset: nat, tag: byte, content: bytes)
    requires |content| < MAX_LENGTH
    ensures At(b, offset, EncodeElement(tag, content)) <==>
              offset < |b| && b[offset] == tag
              && LengthAt(b, offset + 1, |content|)
              && At(b, offset + 1 + |EncodeLength(|content|)|, content)
  {
    AtParts(b, offset, [tag] + EncodeLength(|content|), content);
    AtParts(b, offset, [tag], EncodeLength(|content|));
    if offset < |b| && b[offset] == tag { assert At(b, offset, [tag]); }
    if At(b, offset, [tag]) { AtFirst(b, offset, [tag]); }
  }

  // ----- signatures

  function LowS(s: nat): (r: nat)
    requires InRange(s)
    ensures InRange(r) && r <= P256_HALF_ORDER && (r == s || r == P256_ORDER - s)
  {
    if s <= P256_ORDER - s then s else P256_ORDER - s
  }

  /** The 64-byte `r || min(s, n - s)`. */
  function Compact(r: nat, s: nat): (c: bytes)
    requires InRange(r) && InRange(s)
    ensures |c| == 64
  {
    BE(r, 32) + BE(LowS(s), 32)
  }

  ghost predicate IsSignature(b: bytes, r: int, s: int) {
    InRange(r) && InRange(s) && b == EncodeSignature(r, s)
  }

  /** What a DER signature means: its compact form, when it is the encoding of a pair at all. */
  ghost function CompactOf(der: bytes): Option<bytes> {
    if exists r, s :: IsSignature(der, r, s) then
      var r, s :| IsSignature(der, r, s);
      Some(Compact(r, s))
    else None
  }

  /** Where the two integers of an encoded pair stand. */
  lemma SignatureParts(b: bytes, r: int, s: int)
    requires IsSignature(b, r, s)
    ensures |b| >= 2 && b[0] == 0x30
    ensures LengthSpec(b, 1).Some?
    ensures var field := LengthSpec(b, 1).value;
            var (er, es) := (EncodeInteger(r), EncodeInteger(s));
            field.length == |er| + |es| == |b| - field.nextOffset
            && IntegerSpec(b, field.nextOffset) == Some(IntegerField(r, field.nextOffset + |er|))
            && IntegerSpec(b, field.nextOffset + |er|) == Some(IntegerField(s, |b|))
  {
    IntegerLength(r); IntegerLength(s);
    var er, es := EncodeInteger(r), EncodeInteger(s);
    assert At(b, 0, EncodeElement(0x30, er + es));
    ElementParts(b, 0, 0x30, er + es);
    LengthSpecIs(b, 1, |er + es|);
    PairReads(b, LengthSpec(b, 1).value.nextOffset, r, s);
  }

  lemma PairReads(b: bytes, start: nat, r: nat, s: nat)
    requires InRange(r) && InRange(s) && At(b, start, EncodeInteger(r) + EncodeInteger(s))
    ensures IntegerSpec(b, start) == Some(IntegerField(r, start + |EncodeInteger(r)|))
    ensures IntegerSpec(b, start + |EncodeInteger(r)|)
            == Some(IntegerField(s, start + |EncodeInteger(r)| + |EncodeInteger(s)|))
  {
    AtParts(b, start, EncodeInteger(r), EncodeInteger(s));
    IntegerSpecIs(b, start, r);
    IntegerSpecIs(b, start + |EncodeInteger(r)|, s);
  }

  lemma IntegerUnique(b: bytes, offset: nat, v: int, w: int)
    requires IntegerAt(b, offset, v) && IntegerAt(b, offset, w)
    ensures v == w
  {
    IntegerAtShape(b, offset, v);
    IntegerAtShape(b, offset, w);
    ContentReads(v);
    ContentReads(w);
    AtSameLength(b, LengthSpec(b, offset + 1).value.nextOffset, IntegerContent(v), IntegerContent(w));
  }

  /** A byte string encodes at most one pair. */
  lemma SignatureUnique(b: bytes, r: int, s: int, r': int, s': int)
    requires IsSignature(b, r, s) && IsSignature(b, r', s')
    ensures r == r' && s == s'
  {
    SignatureParts(b, r, s); SignatureParts(b, r', s');
  }

  /** Encoding inverts: the meaning of an encoded pair is its compact form. */
  lemma CompactOfEncoding(r: nat, s: nat)
    requires InRange(r) && InRange(s)
    ensures CompactOf(EncodeSignature(r, s)) == Some(Compact(r, s))
  {
    var der := EncodeSignature(r, s);
    assert IsSignature(der, r, s);
    var r', s' :| IsSignature(der, r', s') && CompactOf(der) == Some(Compact(r', s'));
    SignatureUnique(der, r, s, r', s');
  }

  /** The two signatures of one message that differ in the sign of s have one compact form. */
  lemma MirroredSignature(r: nat, s: nat)
    requires InRange(r) && InRange(s)
    ensures CompactOf(EncodeSignature(r, s)) == CompactOf(EncodeSignature(r, P256_ORDER - s))
  {
    CompactOfEncoding(r, s);
    CompactOfEncoding(r, P256_ORDER - s);
  }

  /** Equal compact forms come from the same r and from s up to sign. */
  lemma CompactDetermines(r: nat, s: nat, r': nat, s': nat)
    requires InRange(r) && InRange(s) && InRange(r') && InRange(s')
    requires Compact(r, s) == Compact(r', s')
    ensures r == r' && (s == s' || s + s' == P256_ORDER)
  {
    Cut(BE(r, 32), BE(LowS(s), 32), BE(r', 32), BE(LowS(s'), 32));
    Pow256At32();
    ReadsBackBE(r, 32); ReadsBackBE(r', 32);
    ReadsBackBE(LowS(s), 32); ReadsBackBE(LowS(s'), 32);
  }

  /** The two integers found by walking through a sequence, if the walk ends with the bytes. */
  ghost function Walk(der: bytes): Option<(int, int)> {
    if |der| < 2 || der[0] != 0x30 then None
    else
      var sequence :- LengthSpec(der, 1);
      if sequence.length != |der| - sequence.nextOffset then None
      else
        var r :- IntegerSpec(der, sequence.nextOffset);
        var s :- IntegerSpec(der, r.nextOffset);
        if s.nextOffset != |der| then None else Some((r.value, s.value))
  }

  lemma SignatureWalks(der: bytes, r: int, s: int)
    requires IsSignature(der, r, s)
    ensures Walk(der) == Some((r, s))
  {
    SignatureParts(der, r, s);
  }

  /** Walking through the bytes finds exactly the encoded pairs. */
  lemma WalkDecides(der: bytes)
    ensures Walk(der).Some? ==> IsSignature(der, Walk(der).value.0, Walk(der).value.1)
    ensures Walk(der).None? ==> forall r, s :: !IsSignature(der, r, s)
  {
    if Walk(der).Some? {
      PartsMakeSignature(der);
    } else if r, s :| IsSignature(der, r, s) {
      SignatureWalks(der, r, s);
    }
  }

  lemma WalkGivesCompact(der: bytes)
    ensures Walk(der).None? ==> CompactOf(der) == None
    ensures Walk(der).Some? ==> var (r, s) := Walk(der).value;
                                InRange(r) && InRange(s) && CompactOf(der) == Some(Compact(r, s))
  {
    WalkDecides(der);
    if Walk(der).Some? { CompactOfEncoding(Walk(der).value.0, Walk(der).value.1); }
  }

  method ParseDerSignatureToCompact(der: bytes) returns (c: Option<bytes>)
    ensures c == CompactOf(der)
  {
    WalkGivesCompact(der);
    if |der| < 2 { return None; }
    if der[0] != 0x30 { return None; }
    var sequence := ReadDerLength(der, 1);
    if sequence.None? { return None; }
    var offset := sequence.value.nextOffset;
    if sequence.value.length != |der| - offset { return None; }
    var first := ReadDerInteger(der, offset);
    if first.None? { return None; }
    var second := ReadDerInteger(der, first.value.nextOffset);
    if second.None? { return None; }
    if second.value.nextOffset != |der| { return None; }
    var r, s := first.value.value, second.value.value;
    var sLow := s;
    if s > P256_HALF_ORDER { sLow := P256_ORDER - s; }
    var left, right := BigIntTo32Bytes(r), BigIntTo32Bytes(sLow);
    c := Some(left.value + right.value);
  }

  /** A sequence header and two integers that fill the bytes are an encoded pair. */
  lemma TwoIntegersMakeSignature(b: bytes, start: nat, r: int, s: int)
    requires IntegerAt(b, start, r) && IntegerAt(b, start + |EncodeInteger(r)|, s)
    requires start + |EncodeInteger(r)| + |EncodeInteger(s)| == |b| && |b| - start < MAX_LENGTH
    requires |b| > 0 && b[0] == 0x30 && LengthAt(b, 1, |b| - start) && start == 1 + |EncodeLength(|b| - start)|
    ensures IsSignature(b, r, s)
  {
    IntegerLength(r); IntegerLength(s);
    var er, es := EncodeInteger(r), EncodeInteger(s);
    AtParts(b, start, er, es);
    ElementParts(b, 0, 0x30, er + es);
    AtWhole(b, EncodeSignature(r, s));
  }

  lemma WalkParts(b: bytes) returns (start: nat, mid: nat, r: int, s: int)
    requires Walk(b).Some?
    ensures Walk(b) == Some((r, s)) && |b| > 0 && b[0] == 0x30
    ensures start <= |b| && LengthSpec(b, 1) == Some(LengthField(|b| - start, start))
    ensures r >= 0 && IntegerSpec(b, start) == Some(IntegerField(r, mid))
    ensures s >= 0 && IntegerSpec(b, mid) == Some(IntegerField(s, |b|))
  {
    start := LengthSpec(b, 1).value.nextOffset;
    mid := IntegerSpec(b, start).value.nextOffset;
    r, s := IntegerSpec(b, start).value.value, IntegerSpec(b, mid).value.value;
  }

  lemma SpecsMakeSignature(b: bytes, start: nat, mid: nat, r: nat, s: nat)
    requires |b| > 0 && b[0] == 0x30 && start <= |b| && LengthSpec(b, 1) == Some(LengthField(|b| - start, start))
    requires IntegerSpec(b, start) == Some(IntegerField(r, mid)) && IntegerSpec(b, mid) == Some(IntegerField(s, |b|))
    ensures IsSignature(b, r, s)
  {
    LengthSpecStands(b, 1);
    IntegerSpecStands(b, start);
    IntegerSpecStands(b, mid);
    TwoIntegersMakeSignature(b, start, r, s);
  }

  lemma PartsMakeSignature(b: bytes)
    requires Walk(b).Some?
    ensures IsSignature(b, Walk(b).value.0, Walk(b).value.1)
  {
    var start, mid, r, s := WalkParts(b);
    SpecsMakeSignature(b, start, mid, r, s);
  }
}

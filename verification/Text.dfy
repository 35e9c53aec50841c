// Text codecs behind the clientDataJSON template: UTF-8, unpadded base64url, decimal.
module Text {
  import opened Basics

  // ----- UTF-8 (RFC 3629); a Dafny char is a Unicode scalar value

  function Utf8Char(c: char): (r: bytes)
    ensures 1 <= |r| <= 4
  {
    var v := c as int;
    if v < 0x80 then [v]
    else if v < 0x800 then [0xC0 + v / 64, 0x80 + v % 64]
    else if v < 0x1_0000 then [0xE0 + v / 4096, 0x80 + v / 64 % 64, 0x80 + v % 64]
    else [0xF0 + v / 262144, 0x80 + v / 4096 % 64, 0x80 + v / 64 % 64, 0x80 + v % 64]
  }

  function Utf8(s: string): bytes {
    if s == "" then [] else Utf8Char(s[0]) + Utf8(s[1..])
  }

  predicate Continuation(x: byte) { 0x80 <= x < 0xC0 }

  predicate IsScalar(v: int) { 0 <= v < 0xD800 || 0xE000 <= v < 0x11_0000 }

  /** The number of bytes a leading byte announces; 0 when it cannot lead. */
  function Announced(x: byte): nat {
    if x < 0x80 then 1
    else if x < 0xC0 then 0
    else if x < 0xE0 then 2
    else if x < 0xF0 then 3
    else if x < 0xF8 then 4
    else 0
  }

  function Two(p: int, q: int): int { (p - 0xC0) * 64 + (q - 0x80) }

  function Three(p: int, q: int, r: int): int { (p - 0xE0) * 4096 + (q - 0x80) * 64 + (r - 0x80) }

  function Four(p: int, q: int, r: int, s: int): int {
    (p - 0xF0) * 262144 + (q - 0x80) * 4096 + (r - 0x80) * 64 + (s - 0x80)
  }

  /** The value and length of the first scalar, shortest form only. */
  function DecodeFirst(b: bytes): Option<(int, nat)>
    requires b != []
  {
    var n := Announced(b[0]);
    if n == 0 || n > |b| then None
    else if n == 1 then Some((b[0], 1))
    else if !Continuation(b[1]) then None
    else if n == 2 then Shortest(Two(b[0], b[1]), 0x80, 2)
    else if !Continuation(b[2]) then None
    else if n == 3 then Shortest(Three(b[0], b[1], b[2]), 0x800, 3)
    else if !Continuation(b[3]) then None
    else Shortest(Four(b[0], b[1], b[2], b[3]), 0x1_0000, 4)
  }

  function Shortest(v: int, least: int, n: nat): Option<(int, nat)> {
    if least <= v && IsScalar(v) then Some((v, n)) else None
  }

  lemma Joins(v: int)
    requires 0 <= v < 0x20_0000
    ensures v < 0x800 ==> Two(0xC0 + v / 64, 0x80 + v % 64) == v
    ensures v < 0x1_0000 ==> Three(0xE0 + v / 4096, 0x80 + v / 64 % 64, 0x80 + v % 64) == v
    ensures Four(0xF0 + v / 262144, 0x80 + v / 4096 % 64, 0x80 + v / 64 % 64, 0x80 + v % 64) == v
  {
    assert v / 64 == v / 4096 * 64 + v / 64 % 64;
    assert v / 4096 == v / 262144 * 64 + v / 4096 % 64;
  }

  lemma DecodesFirst(c: char, rest: bytes)
    ensures DecodeFirst(Utf8Char(c) + rest) == Some((c as int, |Utf8Char(c)|))
  {
    var b := Utf8Char(c) + rest;
    Joins(c as int);
    assert b[0] == Utf8Char(c)[0];
    if |Utf8Char(c)| > 1 { assert b[1] == Utf8Char(c)[1]; }
    if |Utf8Char(c)| > 2 { assert b[2] == Utf8Char(c)[2]; }
    if |Utf8Char(c)| > 3 { assert b[3] == Utf8Char(c)[3]; }
  }

  lemma TwoSplits(p: byte, q: byte)
    requires Continuation(q)
    ensures 0xC0 + Two(p, q) / 64 == p && 0x80 + Two(p, q) % 64 == q
  {
  }

  lemma ThreeSplits(p: byte, q: byte, r: byte)
    requires Continuation(q) && Continuation(r)
    ensures 0xE0 + Three(p, q, r) / 4096 == p && 0x80 + Three(p, q, r) / 64 % 64 == q
    ensures 0x80 + Three(p, q, r) % 64 == r
  {
    var v := Three(p, q, r);
    var high := (p - 0xE0) * 64 + (q - 0x80);
    assert v == high * 64 + (r - 0x80);
    assert v / 64 == high && v / 4096 == high / 64;
  }

  lemma FourSplits(p: byte, q: byte, r: byte, s: byte)
    requires Continuation(q) && Continuation(r) && Continuation(s)
    ensures 0xF0 + Four(p, q, r, s) / 262144 == p && 0x80 + Four(p, q, r, s) / 4096 % 64 == q
    ensures 0x80 + Four(p, q, r, s) / 64 % 64 == r && 0x80 + Four(p, q, r, s) % 64 == s
  {
    var v := Four(p, q, r, s);
    var high := (p - 0xF0) * 64 + (q - 0x80);
    assert v == high * 4096 + ((r - 0x80) * 64 + (s - 0x80));
    assert v / 4096 == high;
    assert v / 262144 == high / 64;
    assert v / 64 == high * 64 + (r - 0x80);
  }

  lemma FirstIsEncoded(b: bytes)
    requires b != [] && DecodeFirst(b).Some?
    ensures IsScalar(DecodeFirst(b).value.0)
    ensures 1 <= DecodeFirst(b).value.1 <= |b|
    ensures b[..DecodeFirst(b).value.1] == Utf8Char(DecodeFirst(b).value.0 as char)
  {
    var n := DecodeFirst(b).value.1;
    if n == 1 {
      assert b[..1] == [b[0]];
    } else if n == 2 {
      TwoSplits(b[0], b[1]);
      assert b[..2] == [b[0], b[1]];
    } else if n == 3 {
      ThreeSplits(b[0], b[1], b[2]);
      assert b[..3] == [b[0], b[1], b[2]];
    } else {
      FourSplits(b[0], b[1], b[2], b[3]);
      assert b[..4] == [b[0], b[1], b[2], b[3]];
    }
  }

  function DecodeUtf8(b: bytes): Option<string>
    decreases |b|
  {
    if b == [] then Some("")
    else
      var first :- DecodeFirst(b);
      FirstIsEncoded(b);
      var rest :- DecodeUtf8(b[first.1..]);
      Some([first.0 as char] + rest)
  }

  lemma {:induction false} Utf8Decodes(s: string)
    ensures DecodeUtf8(Utf8(s)) == Some(s)
  {
    if s != "" {
      var c, rest := s[0], Utf8(s[1..]);
      DecodesFirst(c, rest);
      assert Utf8(s)[|Utf8Char(c)|..] == rest;
      Utf8Decodes(s[1..]);
      assert s == [c] + s[1..];
    }
  }

  lemma DecodeUnfolds(b: bytes) returns (k: nat, c: char)
    requires b != [] && DecodeUtf8(b).Some?
    ensures 1 <= k <= |b| && b[..k] == Utf8Char(c) && DecodeUtf8(b[k..]).Some?
    ensures DecodeUtf8(b).value == [c] + DecodeUtf8(b[k..]).value
  {
    FirstIsEncoded(b);
    k, c := DecodeFirst(b).value.1, DecodeFirst(b).value.0 as char;
  }

  lemma DecodeStep(b: bytes) returns (c: char, rest: bytes)
    requires b != [] && DecodeUtf8(b).Some?
    ensures |rest| < |b| && b == Utf8Char(c) + rest && DecodeUtf8(rest).Some?
    ensures DecodeUtf8(b).value == [c] + DecodeUtf8(rest).value
  {
    var k, d := DecodeUnfolds(b);
    c, rest := d, b[k..];
    Rejoined(b, k);
  }

  lemma Rejoined(b: bytes, k: nat)
    requires k <= |b|
    ensures b == b[..k] + b[k..]
  {
  }

  lemma {:induction false} Utf8Prepend(c: char, s: string)
    ensures Utf8([c] + s) == Utf8Char(c) + Utf8(s)
  {
    assert ([c] + s)[1..] == s;
  }

  lemma {:induction false} DecodedIsUtf8(b: bytes)
    requires DecodeUtf8(b).Some?
    ensures Utf8(DecodeUtf8(b).value) == b
    decreases |b|
  {
    if b != [] {
      var c, rest := DecodeStep(b);
      DecodedIsUtf8(rest);
      Utf8Prepend(c, DecodeUtf8(rest).value);
    }
  }

  /** Decoding is exact: it accepts the encodings and inverts them. */
  lemma {:induction false} Utf8Exact(b: bytes, s: string)
    ensures DecodeUtf8(b) == Some(s) <==> b == Utf8(s)
  {
    Utf8Decodes(s);
    if DecodeUtf8(b).Some? { DecodedIsUtf8(b); }
  }

  lemma {:induction false} Utf8Concat(s: string, t: string)
    ensures Utf8(s + t) == Utf8(s) + Utf8(t)
  {
    if s == "" {
      assert s + t == t;
    } else {
      Utf8Concat(s[1..], t);
      assert (s + t)[1..] == s[1..] + t && (s + t)[0] == s[0];
      assert Utf8(s + t) == Utf8Char(s[0]) + (Utf8(s[1..]) + Utf8(t));
    }
  }

  // ----- unpadded base64url (section 5 of RFC 4648)

  type sextet = x: int | 0 <= x < 64

  function Symbol(x: sextet): char {
    if x < 26 then 'A' + x as char
    else if x < 52 then 'a' + (x - 26) as char
    else if x < 62 then '0' + (x - 52) as char
    else if x == 62 then '-'
    else '_'
  }

  function SextetOf(c: char): Option<sextet> {
    if 'A' <= c <= 'Z' then Some(c as int - 'A' as int)
    else if 'a' <= c <= 'z' then Some(c as int - 'a' as int + 26)
    else if '0' <= c <= '9' then Some(c as int - '0' as int + 52)
    else if c == '-' then Some(62)
    else if c == '_' then Some(63)
    else None
  }

  lemma SymbolsInvert(x: sextet, c: char)
    ensures SextetOf(Symbol(x)) == Some(x)
    ensures SextetOf(c).Some? ==> Symbol(SextetOf(c).value) == c
    ensures Symbol(x) != '"'
  {
  }

  function Sextets(b: bytes): seq<sextet> {
    if b == [] then []
    else if |b| == 1 then [b[0] / 4, b[0] % 4 * 16]
    else if |b| == 2 then [b[0] / 4, b[0] % 4 * 16 + b[1] / 16, b[1] % 16 * 4]
    else [b[0] / 4, b[0] % 4 * 16 + b[1] / 16, b[1] % 16 * 4 + b[2] / 64, b[2] % 64] + Sextets(b[3..])
  }

  function FirstByte(p: int, q: int): int { p * 4 + q / 16 }

  function SecondByte(q: int, r: int): int { q % 16 * 16 + r / 4 }

  function ThirdByte(r: int, s: int): int { r % 4 * 64 + s }

  /** Unused low bits must be zero; one leftover sextet is no byte. */
  function FromSextets(x: seq<sextet>): Option<bytes> {
    if x == [] then Some([])
    else if |x| == 1 then None
    else if |x| == 2 then
      if x[1] % 16 == 0 then Some([FirstByte(x[0], x[1])]) else None
    else if |x| == 3 then
      if x[2] % 4 == 0 then Some([FirstByte(x[0], x[1]), SecondByte(x[1], x[2])]) else None
    else
      var rest :- FromSextets(x[4..]);
      Some([FirstByte(x[0], x[1]), SecondByte(x[1], x[2]), ThirdByte(x[2], x[3])] + rest)
  }

  /** Three bytes regroup as four sextets and back. */
  lemma Regroup(x: byte, y: byte, z: byte)
    ensures FirstByte(x / 4, x % 4 * 16 + y / 16) == x
    ensures SecondByte(x % 4 * 16 + y / 16, y % 16 * 4 + z / 64) == y
    ensures ThirdByte(y % 16 * 4 + z / 64, z % 64) == z
  {
  }

  lemma Ungroup(p: sextet, q: sextet, r: sextet, s: sextet)
    ensures 0 <= FirstByte(p, q) < 256 && 0 <= SecondByte(q, r) < 256 && 0 <= ThirdByte(r, s) < 256
    ensures FirstByte(p, q) / 4 == p && FirstByte(p, q) % 4 * 16 + SecondByte(q, r) / 16 == q
    ensures SecondByte(q, r) % 16 * 4 + ThirdByte(r, s) / 64 == r && ThirdByte(r, s) % 64 == s
  {
  }

  lemma {:induction false} SextetsInvert(b: bytes)
    ensures FromSextets(Sextets(b)) == Some(b)
  {
    if |b| == 0 {
    } else if |b| == 1 {
      Regroup(b[0], 0, 0);
      assert FromSextets(Sextets(b)).value == b;
    } else if |b| == 2 {
      Regroup(b[0], b[1], 0);
      assert FromSextets(Sextets(b)).value == b;
    } else {
      Regroup(b[0], b[1], b[2]);
      SextetsInvert(b[3..]);
      assert Sextets(b)[4..] == Sextets(b[3..]);
      assert b == [b[0], b[1], b[2]] + b[3..];
    }
  }

  lemma {:induction false} FromSextetsInvert(x: seq<sextet>)
    requires FromSextets(x).Some?
    ensures Sextets(FromSextets(x).value) == x
  {
    if |x| == 2 {
      Ungroup(x[0], x[1], 0, 0);
    } else if |x| == 3 {
      Ungroup(x[0], x[1], x[2], 0);
    } else if |x| >= 4 {
      FromSextetsInvert(x[4..]);
      LongGroup(x, FromSextets(x[4..]).value);
    }
  }

  lemma {:induction false} SextetsOfThree(p: byte, q: byte, r: byte, rest: bytes)
    ensures Sextets([p, q, r] + rest) == [p / 4, p % 4 * 16 + q / 16, q % 16 * 4 + r / 64, r % 64] + Sextets(rest)
  {
    assert ([p, q, r] + rest)[3..] == rest;
  }

  lemma SameFour(x: seq<sextet>, tail: seq<sextet>, p: sextet, q: sextet, r: sextet, s: sextet)
    requires |x| >= 4 && p == x[0] && q == x[1] && r == x[2] && s == x[3] && tail == x[4..]
    ensures [p, q, r, s] + tail == x
  {
  }

  lemma {:induction false} LongGroup(x: seq<sextet>, rest: bytes)
    requires |x| >= 4 && FromSextets(x[4..]) == Some(rest) && Sextets(rest) == x[4..]
    ensures FromSextets(x).Some? && Sextets(FromSextets(x).value) == x
  {
    Ungroup(x[0], x[1], x[2], x[3]);
    var p: byte, q: byte, r: byte := FirstByte(x[0], x[1]), SecondByte(x[1], x[2]), ThirdByte(x[2], x[3]);
    assert FromSextets(x) == Some([p, q, r] + rest);
    SextetsOfThree(p, q, r, rest);
    SameFour(x, Sextets(rest), p / 4, p % 4 * 16 + q / 16, q % 16 * 4 + r / 64, r % 64);
  }

  function Symbols(x: seq<sextet>): (s: string)
    ensures |s| == |x|
    ensures forall i :: 0 <= i < |s| ==> s[i] == Symbol(x[i])
  {
    seq(|x|, i requires 0 <= i < |x| => Symbol(x[i]))
  }

  function SextetsOf(s: string): (r: Option<seq<sextet>>)
    ensures r.Some? <==> forall i :: 0 <= i < |s| ==> SextetOf(s[i]).Some?
    ensures r.Some? ==> |r.value| == |s| && forall i :: 0 <= i < |s| ==> SextetOf(s[i]) == Some(r.value[i])
  {
    if s == "" then Some([])
    else
      var first :- SextetOf(s[0]);
      var rest :- SextetsOf(s[1..]);
      Some([first] + rest)
  }

  function EncodeBase64Url(b: bytes): string {
    Symbols(Sextets(b))
  }

  function DecodeBase64Url(s: string): Option<bytes> {
    var x :- SextetsOf(s);
    FromSextets(x)
  }

  lemma SymbolsRead(x: seq<sextet>)
    ensures SextetsOf(Symbols(x)) == Some(x)
  {
    forall i | 0 <= i < |x| ensures SextetOf(Symbols(x)[i]) == Some(x[i]) { SymbolsInvert(x[i], 'A'); }
    assert SextetsOf(Symbols(x)).value == x;
  }

  lemma {:induction false} SextetsWrite(s: string)
    requires SextetsOf(s).Some?
    ensures Symbols(SextetsOf(s).value) == s
  {
    forall i | 0 <= i < |s| ensures Symbols(SextetsOf(s).value)[i] == s[i] { SymbolsInvert(0, s[i]); }
  }

  /** Strict decoding accepts exactly the encodings and inverts them. */
  lemma Base64UrlExact(s: string, b: bytes)
    ensures DecodeBase64Url(s) == Some(b) <==> s == EncodeBase64Url(b)
  {
    SymbolsRead(Sextets(b));
    SextetsInvert(b);
    if DecodeBase64Url(s) == Some(b) {
      SextetsWrite(s);
      FromSextetsInvert(SextetsOf(s).value);
    }
  }

  lemma Base64UrlInjective(b: bytes, b': bytes)
    requires EncodeBase64Url(b) == EncodeBase64Url(b')
    ensures b == b'
  {
    Base64UrlExact(EncodeBase64Url(b), b);
    Base64UrlExact(EncodeBase64Url(b), b');
  }

  // ----- decimal numbers

  function Digit(n: nat): char
    requires n < 10
  {
    '0' + n as char
  }

  predicate IsDigit(c: char) { '0' <= c <= '9' }

  predicate AllDigits(s: string) {
    forall i :: 0 <= i < |s| ==> IsDigit(s[i])
  }

  function Decimal(n: nat): (s: string)
    ensures |s| > 0 && AllDigits(s)
  {
    if n < 10 then [Digit(n)] else Decimal(n / 10) + [Digit(n % 10)]
  }

  function DecimalValue(s: string): nat
    requires AllDigits(s)
  {
    if s == "" then 0 else DecimalValue(s[..|s| - 1]) * 10 + (s[|s| - 1] as int - '0' as int)
  }

  lemma {:induction false} DecimalReads(n: nat)
    ensures DecimalValue(Decimal(n)) == n
  {
    if n >= 10 {
      DecimalReads(n / 10);
      assert Decimal(n)[..|Decimal(n)| - 1] == Decimal(n / 10);
    } else {
      assert Decimal(n)[..0] == "";
    }
  }
}

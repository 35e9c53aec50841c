// Fixed-width little-endian and big-endian integers, and minimal big-endian ones.
module Endian {
  import opened Basics

  function Pow256(n: nat): (r: nat)
    ensures r > 0
  {
    if n == 0 then 1 else 256 * Pow256(n - 1)
  }

  lemma Widths()
    ensures Pow256(1) == 0x100
    ensures Pow256(2) == 0x1_0000
    ensures Pow256(3) == 0x100_0000
    ensures Pow256(4) == 0x1_0000_0000
    ensures Pow256(8) == 0x1_0000_0000_0000_0000
  {
    assert Pow256(2) == 256 * Pow256(1);
    assert Pow256(4) == 256 * Pow256(3);
    assert Pow256(6) == 256 * Pow256(5);
    assert Pow256(8) == 256 * Pow256(7);
  }

  // ----- little endian

  function LE(v: nat, n: nat): (r: bytes)
    ensures |r| == n
    decreases n
  {
    if n == 0 then [] else [v % 256] + LE(v / 256, n - 1)
  }

  function FromLE(b: bytes): nat {
    if b == [] then 0 else b[0] + 256 * FromLE(b[1..])
  }

  lemma {:induction false} ReadsBackLE(v: nat, n: nat)
    requires v < Pow256(n)
    ensures FromLE(LE(v, n)) == v
    decreases n
  {
    if n > 0 {
      ReadsBackLE(v / 256, n - 1);
      assert LE(v, n)[1..] == LE(v / 256, n - 1);
    }
  }

  lemma {:induction false} WritesBackLE(b: bytes)
    ensures FromLE(b) < Pow256(|b|)
    ensures LE(FromLE(b), |b|) == b
  {
    if b != [] {
      WritesBackLE(b[1..]);
      assert b == [b[0]] + b[1..];
    }
  }

  // ----- big endian

  function BE(v: nat, n: nat): (r: bytes)
    ensures |r| == n
    decreases n
  {
    if n == 0 then [] else BE(v / 256, n - 1) + [v % 256]
  }

  function FromBE(b: bytes): nat {
    if b == [] then 0 else FromBE(b[..|b| - 1]) * 256 + b[|b| - 1]
  }

  lemma {:induction false} FromBEAppend(b: bytes, x: byte)
    ensures FromBE(b + [x]) == FromBE(b) * 256 + x
  {
    assert (b + [x])[..|b|] == b;
  }

  lemma {:induction false} ReadsBackBE(v: nat, n: nat)
    requires v < Pow256(n)
    ensures FromBE(BE(v, n)) == v
    decreases n
  {
    if n > 0 {
      ReadsBackBE(v / 256, n - 1);
      FromBEAppend(BE(v / 256, n - 1), v % 256);
    }
  }

  lemma {:induction false} WritesBackBE(b: bytes)
    ensures FromBE(b) < Pow256(|b|)
    ensures BE(FromBE(b), |b|) == b
  {
    if b != [] {
      WritesBackBE(b[..|b| - 1]);
      assert b == b[..|b| - 1] + [b[|b| - 1]];
    }
  }

  // ----- minimal big endian

  /** The shortest big-endian form of v; zero is one zero byte. */
  function MinBE(v: nat): (r: bytes)
    ensures |r| > 0
  {
    if v < 256 then [v] else MinBE(v / 256) + [v % 256]
  }

  lemma {:induction false} ReadsBackMinBE(v: nat)
    ensures FromBE(MinBE(v)) == v
    ensures MinBE(v)[0] == 0 ==> v == 0
  {
    if v < 256 {
      FromBEAppend([], v);
      assert [] + [v] == [v];
    } else {
      ReadsBackMinBE(v / 256);
      FromBEAppend(MinBE(v / 256), v % 256);
    }
  }

  /** A leading nonzero byte makes a value at least 256^(length-1). */
  lemma {:induction false} LeadingByteBound(b: bytes)
    requires |b| > 0 && b[0] != 0
    ensures FromBE(b) >= Pow256(|b| - 1)
  {
    if |b| > 1 {
      LeadingByteBound(b[..|b| - 1]);
    }
  }

  lemma {:induction false} WritesBackMinBE(b: bytes)
    requires |b| > 0
    requires |b| == 1 || b[0] != 0
    ensures MinBE(FromBE(b)) == b
  {
    var init, last := b[..|b| - 1], b[|b| - 1];
    assert b == init + [last];
    if |b| > 1 {
      WritesBackMinBE(init);
      LeadingByteBound(init);
    }
  }

  lemma {:induction false} MinBELength(v: nat, n: nat)
    requires v < Pow256(n) && n > 0
    ensures |MinBE(v)| <= n
  {
    if v >= 256 {
      MinBELength(v / 256, n - 1);
    }
  }
}

/** Byte strings, little-endian words, and where one byte string sits inside another. */
module Bytes {

  type byte = b: int | 0 <= b < 256
  type Bytes = seq<byte>

  const TWO63: nat := 0x8000_0000_0000_0000
  const TWO64: nat := 0x1_0000_0000_0000_0000

  function Pow256(n: nat): (r: nat)
    ensures r > 0
  {
    if n == 0 then 1 else 256 * Pow256(n - 1)
  }

  // The n low bytes of v, lowest first.
  function LE(v: nat, n: nat): (r: Bytes)
    ensures |r| == n
    decreases n, v
  {
    if n == 0 then [] else [v % 256] + LE(v / 256, n - 1)
  }

  function Word(s: Bytes): (v: nat)
    ensures v < Pow256(|s|)
  {
    if s == [] then 0 else s[0] + 256 * Word(s[1..])
  }

  lemma {:induction false} WordOfLE(v: nat, n: nat)
    requires v < Pow256(n)
    ensures Word(LE(v, n)) == v
  {
    if n > 0 {
      WordOfLE(v / 256, n - 1);
      assert LE(v, n)[1..] == LE(v / 256, n - 1);
    }
  }

  lemma {:induction false} LEOfWord(s: Bytes)
    ensures LE(Word(s), |s|) == s
  {
    if s != [] {
      LEOfWord(s[1..]);
      assert Word(s) / 256 == Word(s[1..]) && Word(s) % 256 == s[0];
    }
  }

  // The lowest byte comes first.
  lemma WordIs(s: Bytes)
    requires |s| == 8
    ensures Word(s) == s[0] as int + s[1] as int * 0x100 + s[2] as int * 0x1_0000 + s[3] as int * 0x100_0000
      + s[4] as int * 0x1_0000_0000 + s[5] as int * 0x100_0000_0000 + s[6] as int * 0x1_0000_0000_0000 + s[7] as int * 0x100_0000_0000_0000
  {
    assert s[1..][1..] == s[2..] && s[2..][1..] == s[3..] && s[3..][1..] == s[4..] && s[4..][1..] == s[5..];
    assert s[5..][1..] == s[6..] && s[6..][1..] == s[7..] && s[7..][1..] == [];
    assert Word(s[6..]) == s[6] + 256 * Word(s[7..]) && Word(s[4..]) == s[4] + 256 * Word(s[5..]) && Word(s[2..]) == s[2] + 256 * Word(s[3..]);
  }

  lemma Pow256Values()
    ensures Pow256(2) == 0x1_0000 && Pow256(4) == 0x1_0000_0000 && Pow256(8) == TWO64
  {
    assert Pow256(1) == 256 * Pow256(0);
    assert Pow256(2) == 256 * Pow256(1);
    assert Pow256(3) == 256 * Pow256(2);
    assert Pow256(4) == 256 * Pow256(3);
    assert Pow256(5) == 256 * Pow256(4);
    assert Pow256(6) == 256 * Pow256(5);
    assert Pow256(7) == 256 * Pow256(6);
  }

  function U64(v: nat): (r: Bytes)
    ensures |r| == 8
  {
    LE(v, 8)
  }

  lemma U64Word(v: nat)
    requires v < TWO64
    ensures Word(U64(v)) == v
  {
    Pow256Values();
    WordOfLE(v, 8);
  }

  // A uint64 converted to int64.
  function Int64(u: nat): int {
    if u >= TWO63 then u - TWO64 else u
  }

  // x stands in f at offset p.
  predicate At(f: Bytes, p: nat, x: Bytes) {
    p + |x| <= |f| && f[p..p + |x|] == x
  }

  lemma AtSplit(f: Bytes, p: nat, a: Bytes, b: Bytes)
    ensures At(f, p, a + b) <==> At(f, p, a) && At(f, p + |a|, b)
  {
    if At(f, p, a + b) {
      assert f[p..p + |a|] == f[p..p + |a + b|][..|a|] == a;
      assert f[p + |a|..p + |a| + |b|] == f[p..p + |a + b|][|a|..] == b;
    }
    if At(f, p, a) && At(f, p + |a|, b) {
      assert f[p..p + |a + b|] == f[p..p + |a|] + f[p + |a|..p + |a| + |b|];
    }
  }

  lemma AtConcat(pre: Bytes, x: Bytes, post: Bytes)
    ensures At(pre + x + post, |pre|, x)
  {
  }

  function Zeros(n: nat): (r: Bytes)
    ensures |r| == n
  {
    seq(n, _ => 0)
  }

  // What a file holds after Truncate(n): its first n bytes, extended with zeros.
  function Truncate(f: Bytes, n: nat): (r: Bytes)
    ensures |r| == n
    ensures n <= |f| ==> r == f[..n]
  {
    if n <= |f| then f[..n] else f + Zeros(n - |f|)
  }

  // A Go string literal's bytes; every literal here is ASCII.
  function Ascii(s: string): (r: Bytes)
    ensures |r| == |s|
  {
    seq(|s|, i requires 0 <= i < |s| => s[i] as int % 256)
  }

  function Text(b: Bytes): (r: string)
    ensures |r| == |b|
  {
    seq(|b|, i requires 0 <= i < |b| => b[i] as char)
  }

  lemma TextOfAscii(s: string)
    requires forall i :: 0 <= i < |s| ==> s[i] as int < 256
    ensures Text(Ascii(s)) == s
  {
  }
}

/**
 The hash functions of internal/kvshare, left uninterpreted: SHA-256 of a block cut to sixteen
 bytes, the file digest, and the engine's SessionHash64. Every theorem holds for all of them;
 the ones that need two blocks not to collide say so.
 */
module Hashing {
  import opened Bytes
  import opened Options

  type Digest = b: Bytes | |b| == 32 witness Zeros(32)
  type Word64 = n: nat | n < TWO64

  datatype Hashes = Hashes(block: Bytes -> Bytes, digest: Bytes -> Digest, sess: Bytes -> Word64)

  const BLOCK: nat := 65536   // the manifest's granularity
  const CHUNK: nat := 262144  // the engine's K/V chunk

  function BlockAt(f: Bytes, off: nat, b: nat): (r: Bytes)
    requires off + (b + 1) * BLOCK <= |f|
    ensures |r| == BLOCK
  {
    f[off + b * BLOCK..off + (b + 1) * BLOCK]
  }

  function HashRun(h: Hashes, f: Bytes, off: nat, k: nat): (r: seq<Bytes>)
    requires off + k * BLOCK <= |f|
    ensures |r| == k
    ensures forall b :: 0 <= b < k ==> r[b] == h.block(BlockAt(f, off, b))
  {
    if k == 0 then [] else HashRun(h, f, off, k - 1) + [h.block(BlockAt(f, off, k - 1))]
  }

  // The hashes of the whole blocks of n bytes at off; reading past the end of the file fails.
  function BlockHashes(h: Hashes, f: Bytes, off: nat, n: nat): Option<seq<Bytes>> {
    if n / BLOCK > 0 && off + n / BLOCK * BLOCK > |f| then None
    else Some(if n / BLOCK == 0 then [] else HashRun(h, f, off, n / BLOCK))
  }

  method HashBlocks(h: Hashes, f: Bytes, off: nat, n: nat) returns (r: Option<seq<Bytes>>)
    ensures r == BlockHashes(h, f, off, n)
  {
    var out := [];
    var b := 0;
    while b < n / BLOCK
      invariant b <= n / BLOCK && off + b * BLOCK <= |f| + off
      invariant b > 0 ==> off + b * BLOCK <= |f| && out == HashRun(h, f, off, b)
      invariant b == 0 ==> out == []
    {
      if off + (b + 1) * BLOCK > |f| {
        return None;
      }
      out := out + [h.block(BlockAt(f, off, b))];
      b := b + 1;
    }
    return Some(out);
  }

  // Hashes reused for the blocks below reuse and computed for the rest are the hashes of all.
  lemma ReuseBlocks(h: Hashes, f: Bytes, n: nat, reuse: nat, prev: seq<Bytes>)
    requires reuse * BLOCK <= n && reuse * BLOCK <= |f| && reuse <= |prev|
    requires forall b :: 0 <= b < reuse ==> prev[b] == h.block(BlockAt(f, 0, b))
    ensures var tail := BlockHashes(h, f, reuse * BLOCK, n - reuse * BLOCK);
      var all := BlockHashes(h, f, 0, n);
      (tail.Some? <==> all.Some?) && (tail.Some? ==> prev[..reuse] + tail.value == all.value)
  {
    var m := n - reuse * BLOCK;
    assert m / BLOCK == n / BLOCK - reuse;
    var tail, all := BlockHashes(h, f, reuse * BLOCK, m), BlockHashes(h, f, 0, n);
    if tail.Some? && all.Some? {
      var x, y := prev[..reuse] + tail.value, all.value;
      forall b | 0 <= b < |y| ensures x[b] == y[b] {
        if b >= reuse {
          assert BlockAt(f, reuse * BLOCK, b - reuse) == BlockAt(f, 0, b);
        }
      }
      assert x == y;
    }
  }

  // The CHUNK-sized pieces of x, the last one shorter.
  function ChunkHashes(h: Hashes, x: Bytes): (r: seq<Word64>)
    ensures |r| == (|x| + CHUNK - 1) / CHUNK
    decreases |x|
  {
    if x == [] then []
    else if |x| <= CHUNK then [h.sess(x)]
    else [h.sess(x[..CHUNK])] + ChunkHashes(h, x[CHUNK..])
  }

  // Hash i is that of the bytes from i * 256 KiB on, 256 KiB of them or all there are.
  lemma {:induction false} ChunkAt(h: Hashes, x: Bytes, i: nat)
    requires i * 262144 < |x|
    ensures i < |ChunkHashes(h, x)| && ChunkHashes(h, x)[i] ==
      h.sess(if (i + 1) * 262144 <= |x| then x[i * 262144..(i + 1) * 262144] else x[i * 262144..])
    decreases i
  {
    if i == 0 {
      assert x[0 * 262144..] == x;
      if CHUNK <= |x| { assert x[0 * 262144..(0 + 1) * 262144] == x[..CHUNK]; }
      if |x| == CHUNK { assert x[..CHUNK] == x; }
    } else {
      ChunkAt(h, x[CHUNK..], i - 1);
      var y := x[CHUNK..];
      assert y[(i - 1) * 262144..] == x[i * 262144..];
      if (i + 1) * 262144 <= |x| { assert y[(i - 1) * 262144..i * 262144] == x[i * 262144..(i + 1) * 262144]; }
    }
  }

  // Whole chunks hash apart from what follows them.
  lemma {:induction false} ChunkSplit(h: Hashes, x: Bytes, k: nat)
    requires k * CHUNK <= |x|
    ensures ChunkHashes(h, x) == ChunkHashes(h, x[..k * CHUNK]) + ChunkHashes(h, x[k * CHUNK..])
    decreases k
  {
    if k == 0 {
      assert x[..0] == [] && x[0..] == x;
    } else {
      var a, y := x[..k * CHUNK], x[CHUNK..];
      ChunkSplit(h, y, k - 1);
      assert y[..(k - 1) * CHUNK] == x[CHUNK..k * CHUNK] == a[CHUNK..];
      assert y[(k - 1) * CHUNK..] == x[k * CHUNK..];
      assert a[..CHUNK] == x[..CHUNK];
      if |x| <= CHUNK {
        assert k == 1 && x[CHUNK..] == [] && a == x;
      } else if |a| <= CHUNK {
        assert k == 1 && a == x[..CHUNK] && y[..0] == [];
      }
    }
  }
}

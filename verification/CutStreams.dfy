/**
 What a put makes of a delta stream that ends early. The code means to refuse every such stream;
 it refuses exactly those that do not end at one of the points below.
 */
module CutStreams {
  import opened Bytes
  import opened Options
  import opened Delta
  import opened DeltaStream
  import opened Replica
  import opened Replication

  // m bytes into an item: before it, after its name's length, after its name, or anywhere in the
  // bytes of a frame.
  predicate CutPoint(it: Item, m: nat) {
    m == 0 || m == 2 || m == 2 + |it.section| || (it.section == "" && m >= 18)
  }

  lemma {:induction false} Locate(f: Bytes, p: Plan, n: nat, k: nat) returns (j: nat)
    requires Inside(f, p.items) && k <= |p.items| && ItemPos(f, p, k) <= n < |Stream(f, p)|
    ensures k <= j < |p.items| && ItemPos(f, p, j) <= n < ItemPos(f, p, j + 1)
    decreases |p.items| - k
  {
    hide HeaderBytes;
    assert p.items[..|p.items|] == p.items;
    if n < ItemPos(f, p, k + 1) {
      j := k;
    } else {
      j := Locate(f, p, n, k + 1);
    }
  }

  lemma {:induction false} PosGrows(f: Bytes, p: Plan, j: nat, k: nat)
    requires Inside(f, p.items) && j <= k <= |p.items|
    ensures ItemPos(f, p, j) <= ItemPos(f, p, k)
    decreases k - j
  {
    if j < k {
      PosGrows(f, p, j + 1, k);
      ItemPosNext(f, p, j);
    }
  }

  lemma CutHolds(f: Bytes, p: Plan, n: nat, k: nat, j: nat)
    requires Inside(f, p.items) && j < k <= |p.items| && ItemPos(f, p, k) <= n <= |Stream(f, p)|
    ensures Holds(Stream(f, p)[..n], f, p, j)
  {
    hide ItemBytes, Stream, ItemPos;
    StreamAt(f, p, j);
    ItemPosNext(f, p, j);
    PosGrows(f, p, j + 1, k);
    PrefixSlice(Stream(f, p), n, ItemPos(f, p, j), |ItemBytes(f, p.items[j])|);
  }

  // A stream that ends m bytes into an item's head.
  lemma HeadCut(s: Bytes, hd: Header, c: Cursor, it: Item, m: nat)
    requires c.left > 0 && c.pos + m == |s| && m < |ItemHead(it)| && s[c.pos..] == ItemHead(it)[..m] && ItemOk(it)
    ensures NextItem(s, hd, c).0 == if m == 0 || m == 2 || m == 2 + |it.section| then End else Fail
  {
    hide Word, LE, U64, Ascii, Text;
    var n := |it.section|;
    if m >= 2 {
      assert s[c.pos..c.pos + 2] == s[c.pos..][..2] == ItemHead(it)[..2] == LE(n, 2);
      Pow256Values();
      WordOfLE(n, 2);
    }
  }

  // The item the stream ends in, and the put's answer.
  lemma TailCut(f: Bytes, p: Plan, hd: Header, a0: Acc, a: Acc, k: nat, n: nat)
    requires PlanOk(p) && Inside(f, p.items) && k < |p.items| && hd.size == p.size
    requires ItemPos(f, p, k) <= n < ItemPos(f, p, k + 1) <= |Stream(f, p)|
    requires Reached(f, p, a0, k, a) && Applicable(p.items, a0.have)
    ensures a.cur.pos <= n
    ensures PutRun(Stream(f, p)[..n], hd, a).Some? <==> CutPoint(p.items[k], n - ItemPos(f, p, k))
  {
    hide ItemHead, Stream, ItemPos, Reached, Assemble, Applicable, Tiles, NewBytes, NextItem;
    ReachedCursor(f, p, a0, k, a);
    var s, it, q := Stream(f, p)[..n], p.items[k], ItemPos(f, p, k);
    var m := n - q;
    var x := ItemHead(it);
    StreamAt(f, p, k);
    ItemPosNext(f, p, k);
    assert ItemOk(it);
    AtSplit(Stream(f, p), q, x, NewBytes(f, it));
    HeadLen(it);
    if m < |x| {
      assert s[q..] == Stream(f, p)[q..q + |x|][..m];
      HeadCut(s, hd, a.cur, it, m);
    } else {
      PrefixSlice(Stream(f, p), n, q, |x|);
      LastEnds(p, k);
      TilesBelow(p.items, p.size, k);
      NextReads(s, hd, a.cur, it);
      NewLen(f, it);
      DataCut(s, hd, a, it);
    }
  }

  lemma PrefixSlice(s: Bytes, n: nat, q: nat, len: nat)
    requires q + len <= n <= |s|
    ensures s[..n][q..q + len] == s[q..q + len]
  {
  }

  lemma LastEnds(p: Plan, k: nat)
    requires PlanOk(p) && k < |p.items|
    ensures k + 1 == |p.items| ==> p.items[k].off + p.items[k].len == p.size
  {
  }

  lemma HeadLen(it: Item)
    ensures |ItemHead(it)| == 18 + |it.section|
  {
  }

  // The head is whole and the data short: a section is refused, a frame ends the delta.
  lemma DataCut(s: Bytes, hd: Header, a: Acc, it: Item)
    requires a.cur.pos <= |s| && a.cur.left > 0 && ItemOk(it)
    requires var q := a.cur.pos + |ItemHead(it)|;
      && NextItem(s, hd, a.cur) == (Entry(it), Cursor(q, a.cur.left - 1, a.cur.built + it.len))
      && q <= |s| < q + it.len - it.keep
    requires a.cur.left == 1 ==> a.cur.built + it.len == hd.size
    ensures PutRun(s, hd, a).Some? <==> it.section == ""
  {
    hide ItemHead;
    if it.section == "" {
      var q := a.cur.pos + |ItemHead(it)|;
      var data := Available(s, q, it.len - it.keep);
      var b := FrameStep(a, it, data, Cursor(|s|, a.cur.left - 1, a.cur.built + it.len));
      assert PutStep(s, hd, a) == Go(b);
      RunStops(s, hd, b);
    }
  }

  // A planned delta cut after n bytes is taken for a whole one exactly when it ends at a cut
  // point; the whole stream is always taken.
  lemma CutStream(d: Disk, f: Bytes, p: Plan, want: Option<FileMeta>, n: nat)
    requires PlanOk(p) && Inside(f, p.items) && Declares(want, p)
    requires Applicable(p.items, StartAcc(d, HeaderOf(p)).have) && n <= |Stream(f, p)|
    ensures PutAcc(d, Stream(f, p)[..n], want).Some? <==>
      || n == |Stream(f, p)|
      || exists k :: 0 <= k < |p.items| && ItemPos(f, p, k) <= n < ItemPos(f, p, k + 1)
                     && CutPoint(p.items[k], n - ItemPos(f, p, k))
  {
    hide HeaderBytes, Reached, PutRun, Applicable, Tiles, ItemBytes, ReadHeader, StartAcc, CutPoint, ItemsBytes;
    var s, hd := Stream(f, p), HeaderOf(p);
    if n == |s| {
      assert s[..n] == s;
      var d' := PutLeaves(d, f, p, want);
    } else if n < DELTA_HEADER {
      assert ReadHeader(s[..n]).None? by { ShortHeader(s[..n]); }
      forall k | 0 <= k < |p.items| ensures DELTA_HEADER <= ItemPos(f, p, k) { }
    } else {
      assert ItemPos(f, p, 0) == DELTA_HEADER by { assert p.items[..0] == []; FirstPos(f, p); }
      var k := Locate(f, p, n, 0);
      assert s[..n] == HeaderBytes(p) + s[DELTA_HEADER..n];
      HeaderReads(p, s[DELTA_HEADER..n]);
      var a0 := StartAcc(d, hd);
      StartReached(d, f, p);
      ReachedCursor(f, p, a0, 0, a0);
      forall j | 0 <= j < k ensures Holds(s[..n], f, p, j) {
        CutHolds(f, p, n, k, j);
      }
      ApplicableIs(p.items, a0.have);
      var a := RunReaches(s[..n], f, p, hd, a0, 0, a0, k);
      PosGrows(f, p, k + 1, |p.items|);
      LastCursor(f, p, hd);
      TailCut(f, p, hd, a0, a, k, n);
      forall j | 0 <= j < |p.items| && ItemPos(f, p, j) <= n < ItemPos(f, p, j + 1) ensures j == k {
        if j < k {
          PosGrows(f, p, j + 1, k);
        } else if k < j {
          PosGrows(f, p, k + 1, j);
        }
      }
    }
  }

  lemma ShortHeader(s: Bytes)
    requires |s| < DELTA_HEADER
    ensures ReadHeader(s).None?
  {
  }

  lemma FirstPos(f: Bytes, p: Plan)
    requires Inside(f, p.items)
    ensures ItemPos(f, p, 0) == DELTA_HEADER
  {
    assert p.items[..0] == [];
  }
}

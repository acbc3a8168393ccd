/**
 The engine's side of the format (the layout stated in internal/kvshare/enginedelta.go), and that
 applying what it writes rebuilds the session: for every base replica and every new session, the
 delta is accepted and the assembled file is the new session's STRSESS file.
 */
module EngineRebuild {
  import opened Bytes
  import opened Options
  import opened Hashing
  import opened SessFile
  import opened SessGrammar
  import opened SectionNames
  import opened Replica
  import opened EngineDelta
  import opened EngineSound

  // How much of each K/V buffer the engine asks the receiver to keep.
  type Keeps = Field -> nat

  // ---- What the engine writes ----

  function HashBytes(hs: seq<Word64>): Bytes {
    if hs == [] then [] else HashBytes(hs[..|hs| - 1]) + U64(hs[|hs| - 1])
  }

  function KvEnc(h: Hashes, v: Bytes, k: nat): Bytes
    requires k <= |v|
  {
    U64(|v|) + U64(k) + v[k..] + (U64(ChunkCount(|v|)) + HashBytes(ChunkHashes(h, v)))
  }

  function FieldEnc(h: Hashes, fd: Field, v: Bytes, k: nat): Bytes {
    if fd.kind.Kv? then (if k <= |v| then KvEnc(h, v, k) else []) else VecBytes(fd.kind, fd.j, v)
  }

  function FieldsEnc(h: Hashes, kind: Kind, i: nat, vecs: List<Bytes>, K: Keeps): Bytes {
    if vecs.Nil? then [] else
      var fd := Field(kind, i, Len(vecs.init));
      FieldsEnc(h, kind, i, vecs.init, K) + FieldEnc(h, fd, vecs.last, K(fd))
  }

  function RecEnc(h: Hashes, kind: Kind, i: nat, r: Rec, K: Keeps): Bytes {
    r.pre + FieldsEnc(h, kind, i, r.vecs, K) + r.post
  }

  function RecsEnc(h: Hashes, kind: Kind, rs: List<Rec>, K: Keeps): Bytes {
    if rs.Nil? then [] else RecsEnc(h, kind, rs.init, K) + RecEnc(h, kind, Len(rs.init), rs.last, K)
  }

  function GroupEnc(h: Hashes, kind: Kind, rs: List<Rec>, K: Keeps): Bytes {
    U64(Len(rs)) + RecsEnc(h, kind, rs, K)
  }

  function PayloadEnc(h: Hashes, ss: Session, K: Keeps): Bytes {
    ss.geometry + RecEnc(h, Live, 0, ss.live, K) + GroupEnc(h, Ckpt, ss.ckpts, K) + GroupEnc(h, Kv, ss.layers, K)
  }

  // ---- What the base must hold ----

  // A K/V buffer keeps whole chunks, all of them in the base replica and alike there.
  predicate Shares(b0: Reb, fd: Field, v: Bytes, k: nat)
    requires b0.Reb? && FieldOk(fd)
  {
    var name := NameOf(fd);
    && k % CHUNK == 0 && k <= |v|
    && (k > 0 ==> name in b0.chunks && name in b0.secs && k <= HaveLen(b0.have, name)
                  && k <= |b0.secs[name]| && b0.secs[name][..k] == v[..k])
  }

  // What the receiver goes by: the recorded hashes of the kept chunks are the new buffer's.
  predicate KeepOk(h: Hashes, b0: Reb, fd: Field, v: Bytes, k: nat)
    requires b0.Reb? && FieldOk(fd)
  {
    var name := NameOf(fd);
    && k % CHUNK == 0 && k <= |v| && k <= HaveLen(b0.have, name)
    && k <= |FileOf(b0.secs, name)| && FileOf(b0.secs, name)[..k] == v[..k]
    && k / CHUNK <= |ChunksOf(b0.chunks, name)| && k / CHUNK <= ChunkCount(|v|)
    && ChunksOf(b0.chunks, name)[..k / CHUNK] == ChunkHashes(h, v)[..k / CHUNK]
  }

  lemma SharesKeeps(h: Hashes, b0: Reb, fd: Field, v: Bytes, k: nat)
    requires b0.Reb? && FieldOk(fd) && Shares(b0, fd, v, k) && ChunksHeld(h, b0.chunks, b0.secs)
    ensures KeepOk(h, b0, fd, v, k)
  {
    hide NameOf, ChunkHashes;
    if k > 0 {
      var file := b0.secs[NameOf(fd)];
      var n := k / CHUNK;
      assert n * CHUNK == k;
      ChunkSplit(h, file, n);
      ChunkSplit(h, v, n);
      assert |ChunkHashes(h, v[..k])| == n;
    }
  }

  predicate FieldsKeep(b0: Reb, kind: Kind, i: nat, vecs: List<Bytes>, K: Keeps)
    requires b0.Reb? && RecIndexOk(kind, i) && Len(vecs) <= PartCount(kind)
  {
    vecs.Nil? || (
      var fd := Field(kind, i, Len(vecs.init));
      FieldsKeep(b0, kind, i, vecs.init, K) && (kind.Kv? ==> Shares(b0, fd, vecs.last, K(fd))))
  }

  predicate RecsKeep(b0: Reb, kind: Kind, rs: List<Rec>, K: Keeps)
    requires b0.Reb? && RecsOk(kind, rs) && Len(rs) < TWO64 && !kind.Live?
  {
    rs.Nil? || (RecsKeep(b0, kind, rs.init, K) && FieldsKeep(b0, kind, Len(rs.init), rs.last.vecs, K))
  }

  // ---- Walking it ----

  // Fields still to come are as the base left them.
  ghost predicate Untouched(b0: Reb, b: Reb, fd: Field)
    requires b0.Reb? && b.Reb?
  {
    forall g :: FieldOk(g) && !Before(g, fd) ==>
      && FileOf(b.secs, NameOf(g)) == FileOf(b0.secs, NameOf(g))
      && HaveLen(b.have, NameOf(g)) == HaveLen(b0.have, NameOf(g))
      && ChunksOf(b.chunks, NameOf(g)) == ChunksOf(b0.chunks, NameOf(g))
  }

  // Sections written so far have their recorded lengths, and chunk hashes that are their own.
  predicate Sound(h: Hashes, items: seq<RItem>, secs: map<Name, Bytes>, chunks: map<Name, seq<Word64>>) {
    forall i :: 0 <= i < |items| && items[i].section != "" ==>
      && items[i].section in secs && items[i].len == |secs[items[i].section]|
      && (items[i].section in chunks ==> chunks[items[i].section] == ChunkHashes(h, secs[items[i].section]))
  }

  ghost predicate Ready(h: Hashes, b0: Reb, b: Reb, fd: Field)
    requires b0.Reb?
  {
    && b.Reb? && RebOk(b, fd) && Untouched(b0, b, fd) && KvOnly(b.chunks)
    && Sound(h, b.items, b.secs, b.chunks)
  }

  // r is b moved over the stream bytes enc and the file bytes x.
  predicate Found(b: Reb, enc: Bytes, x: Bytes, secs: seq<Section>, r: Reb) {
    MovedB(b, x, secs, r) && r.p == b.p + |enc|
  }

  lemma FoundTwice(b: Reb, e1: Bytes, x: Bytes, sx: seq<Section>, m: Reb, e2: Bytes, y: Bytes, sy: seq<Section>, r: Reb)
    requires Found(b, e1, x, sx, m) && Found(m, e2, y, sy, r)
    ensures Found(b, e1 + e2, x + y, sx + sy, r)
  {
    hide MovedB;
    MovedBTwice(b, x, sx, m, y, sy, r);
  }

  lemma FoundThen(b: Reb, e1: Bytes, x: Bytes, m: Reb, e2: Bytes, y: Bytes, sy: seq<Section>, r: Reb)
    requires Found(b, e1, x, [], m) && Found(m, e2, y, sy, r)
    ensures Found(b, e1 + e2, x + y, sy, r)
  {
    FoundTwice(b, e1, x, [], m, e2, y, sy, r);
    assert [] + sy == sy;
  }

  // A frame changes nothing but the framing.
  lemma {:induction false} FrameReady(h: Hashes, b0: Reb, b: Reb, x: Bytes, p: nat, fd: Field)
    requires b0.Reb? && Ready(h, b0, b, fd)
    ensures var fr := Frame(b, x); Ready(h, b0, fr.(p := p), fd) && MovedB(b, x, [], fr.(p := p))
  {
    hide RebOk, Asm, Untouched, KvOnly;
    var fr := Frame(b, x);
    FrameMoved(b, x, fd);
    SameButPos(fr, fr.(p := p), fd);
    FrameUntouched(b0, b, fr.(p := p), fd);
    FrameSound(h, b, fr);
  }

  lemma FrameUntouched(b0: Reb, b: Reb, r: Reb, fd: Field)
    requires b0.Reb? && b.Reb? && r.Reb? && Untouched(b0, b, fd)
    requires r.secs == b.secs && r.have == b.have && r.chunks == b.chunks
    ensures Untouched(b0, r, fd)
  {
  }

  lemma FrameSound(h: Hashes, b: Reb, fr: Reb)
    requires b.Reb? && fr.Reb? && Sound(h, b.items, b.secs, b.chunks)
    requires fr.secs == b.secs && fr.chunks == b.chunks
    requires exists at, n :: fr.items == FrameItems(b.items, at, n)
    ensures Sound(h, fr.items, fr.secs, fr.chunks)
  {
    var at, n :| fr.items == FrameItems(b.items, at, n);
    var m := |b.items| - 1;
    forall i | 0 <= i < |fr.items| && fr.items[i].section != "" ensures i < |b.items| && fr.items[i] == b.items[i] {
    }
  }

  // A field whose file is now v, and whose chunk hashes, if any, are v's.
  lemma FieldReady(h: Hashes, b0: Reb, b: Reb, fd: Field, n: nat, m: Reb, v: Bytes, r: Reb)
    requires b0.Reb? && Ready(h, b0, b, fd) && FieldOk(fd) && m.Reb? && r.Reb? && n < TWO64
    requires var fr := Frame(b, U64(n)); m == fr.(p := m.p)
    requires r.items == m.items + [RItem(NameOf(fd), |v|, 0)] && r.secs == m.secs[NameOf(fd) := v] && r.frames == m.frames
    requires r.size == m.size + |v| && r.out == m.out + [Section(fd, m.size, |v|)] && r.have == m.have - {NameOf(fd)}
    requires r.chunks == if fd.kind.Kv? then m.chunks[NameOf(fd) := ChunkHashes(h, v)] else m.chunks
    ensures Ready(h, b0, r, Field(fd.kind, fd.i, fd.j + 1))
    ensures MovedB(b, U64(n) + v, [Section(fd, b.size + 8, |v|)], r)
  {
    hide RebOk, Asm, NameOf, Untouched, Sound, KvOnly, MovedB, FieldOk, ChunkHashes;
    CountedMoved(b, n, fd, m, v, r);
    FrameReady(h, b0, b, U64(n), m.p, fd);
    FieldUntouched(b0, m, r, fd, v, ChunkHashes(h, v));
    FieldSound(h, m, fd, v, r);
  }

  lemma FieldUntouched(b0: Reb, m: Reb, r: Reb, fd: Field, v: Bytes, c: seq<Word64>)
    requires b0.Reb? && m.Reb? && r.Reb? && FieldOk(fd) && Untouched(b0, m, fd)
    requires r.secs == m.secs[NameOf(fd) := v] && r.have == m.have - {NameOf(fd)}
    requires r.chunks == m.chunks || r.chunks == m.chunks[NameOf(fd) := c]
    ensures Untouched(b0, r, Field(fd.kind, fd.i, fd.j + 1))
  {
    hide NameOf;
    forall g | FieldOk(g) && !Before(g, Field(fd.kind, fd.i, fd.j + 1))
      ensures FileOf(r.secs, NameOf(g)) == FileOf(b0.secs, NameOf(g))
      ensures HaveLen(r.have, NameOf(g)) == HaveLen(b0.have, NameOf(g))
      ensures ChunksOf(r.chunks, NameOf(g)) == ChunksOf(b0.chunks, NameOf(g))
    {
      assert g != fd && !Before(g, fd);
      if NameOf(g) == NameOf(fd) {
        NameOfInjective(g, fd);
      }
    }
  }

  lemma {:induction false} FieldSound(h: Hashes, m: Reb, fd: Field, v: Bytes, r: Reb)
    requires m.Reb? && r.Reb? && FieldOk(fd) && RebOk(m, fd) && Sound(h, m.items, m.secs, m.chunks) && KvOnly(m.chunks)
    requires r.items == m.items + [RItem(NameOf(fd), |v|, 0)] && r.secs == m.secs[NameOf(fd) := v]
    requires r.chunks == if fd.kind.Kv? then m.chunks[NameOf(fd) := ChunkHashes(h, v)] else m.chunks
    ensures Sound(h, r.items, r.secs, r.chunks) && KvOnly(r.chunks)
  {
    hide RebOk, NameOf, ChunkHashes, FieldOk, IsKV;
    NameOfValid(fd);
    forall i | 0 <= i < |r.items| && r.items[i].section != ""
      ensures r.items[i].section in r.secs && r.items[i].len == |r.secs[r.items[i].section]|
      ensures r.items[i].section in r.chunks ==> r.chunks[r.items[i].section] == ChunkHashes(h, r.secs[r.items[i].section])
    {
      if i < |m.items| {
        assert r.items[i] == m.items[i];
        FreshName(m, fd, i);
      }
    }
  }

  // ---- The receiver finds what the engine wrote ----

  lemma SectionTakes(s: Bytes, b: Reb, fd: Field, keep: nat, v: Bytes)
    requires InS(s, b) && b.Reb? && FieldOk(fd) && |v| < TWO63 && keep <= |v| && At(s, b.p, v[keep..])
    requires keep <= HaveLen(b.have, NameOf(fd)) && keep <= |FileOf(b.secs, NameOf(fd))|
    requires FileOf(b.secs, NameOf(fd))[..keep] == v[..keep]
    ensures var r := SectionB(s, b, fd, keep, |v|);
      r == Reb(b.p + |v| - keep, b.frames, b.items + [RItem(NameOf(fd), |v|, 0)], b.have - {NameOf(fd)}, b.chunks,
               b.keeps[NameOf(fd) := keep], b.size + |v|, b.secs[NameOf(fd) := v], b.out + [Section(fd, b.size, |v|)])
  {
    hide NameOf;
    assert v[..keep] + v[keep..] == v;
  }

  lemma CountTakes(s: Bytes, b: Reb, n: nat)
    requires InS(s, b) && b.Reb? && n < TWO64 && At(s, b.p, U64(n))
    ensures var fr := Frame(b, U64(n)); CountB(s, b) == (fr.(p := b.p + 8), n)
  {
    U64Word(n);
  }

  lemma WholeFinds(h: Hashes, s: Bytes, b0: Reb, b: Reb, fd: Field, v: Bytes, limit: nat)
    requires InS(s, b) && b0.Reb? && Ready(h, b0, b, fd) && FieldOk(fd) && !fd.kind.Kv?
    requires VecOk(fd.kind, fd.j, v) && |v| <= limit < TWO63 && At(s, b.p, VecBytes(fd.kind, fd.j, v))
    ensures var r := WholeB(s, b, fd, limit);
      && Found(b, VecBytes(fd.kind, fd.j, v), VecBytes(fd.kind, fd.j, v), [Section(fd, b.size + 8, |v|)], r)
      && Ready(h, b0, r, Field(fd.kind, fd.i, fd.j + 1))
  {
    hide Ready, NameOf, MovedB, SectionB, CountB, Elem, FieldOk, FrameItems, U64;
    var elem := Elem(fd.kind, fd.j);
    var n := |v| / elem;
    Exact(fd.kind, fd.j, v);
    Fits(n, limit, elem);
    ReadyIs(h, b0, b, fd);
    AtSplit(s, b.p, U64(n), v);
    CountTakes(s, b, n);
    var fr := Frame(b, U64(n));
    var m := fr.(p := b.p + 8);
    assert v[0..] == v;
    SectionTakes(s, m, fd, 0, v);
    FieldReady(h, b0, b, fd, n, m, v, WholeB(s, b, fd, limit));
  }

  lemma ReadyIs(h: Hashes, b0: Reb, b: Reb, fd: Field)
    requires b0.Reb? && Ready(h, b0, b, fd)
    ensures b.Reb?
  {
  }

  lemma ReadyBase(h: Hashes, b0: Reb, b: Reb, fd: Field)
    requires b0.Reb? && Ready(h, b0, b, fd) && FieldOk(fd)
    ensures b.Reb?
    ensures FileOf(b.secs, NameOf(fd)) == FileOf(b0.secs, NameOf(fd))
    ensures HaveLen(b.have, NameOf(fd)) == HaveLen(b0.have, NameOf(fd))
    ensures ChunksOf(b.chunks, NameOf(fd)) == ChunksOf(b0.chunks, NameOf(fd))
  {
    hide RebOk, Sound, KvOnly, NameOf;
    assert !Before(fd, fd);
  }

  lemma {:induction false} WordsRead(s: Bytes, p: nat, hs: seq<Word64>)
    requires At(s, p, HashBytes(hs))
    ensures |HashBytes(hs)| == 8 * |hs| && Words(s, p, |hs|) == hs
  {
    if hs != [] {
      var n := |hs| - 1;
      AtSplit(s, p, HashBytes(hs[..n]), U64(hs[n]));
      WordsRead(s, p, hs[..n]);
      U64Word(hs[n]);
      assert hs == hs[..n] + [hs[n]];
    }
  }

  lemma HashesTake(h: Hashes, s: Bytes, b: Reb, name: Name, keep: nat, v: Bytes, base: seq<Word64>)
    requires InS(s, b) && b.Reb? && name in b.secs && b.secs[name] == v && |v| < TWO63 && keep <= |v| && keep % CHUNK == 0
    requires At(s, b.p, U64(ChunkCount(|v|)) + HashBytes(ChunkHashes(h, v)))
    requires keep / CHUNK <= |base| && keep / CHUNK <= ChunkCount(|v|)
    requires base[..keep / CHUNK] == ChunkHashes(h, v)[..keep / CHUNK]
    ensures var r := HashesB(h, s, b, name, keep, |v|, base);
      r == b.(p := b.p + 8 + 8 * ChunkCount(|v|), chunks := b.chunks[name := ChunkHashes(h, v)])
    ensures |HashBytes(ChunkHashes(h, v))| == 8 * ChunkCount(|v|)
  {
    hide ChunkHashes, HashBytes, U64, Words;
    var n, hs := ChunkCount(|v|), ChunkHashes(h, v);
    AtSplit(s, b.p, U64(n), HashBytes(hs));
    U64Word(n);
    WordsRead(s, b.p + 8, hs);
    var k := keep / CHUNK;
    assert k * CHUNK == keep;
    ChunkSplit(h, v, k);
    assert hs[k..] == ChunkHashes(h, v[keep..]);
  }

  lemma KvFinds(h: Hashes, s: Bytes, b0: Reb, b: Reb, fd: Field, v: Bytes, k: nat, limit: nat)
    requires InS(s, b) && b0.Reb? && Ready(h, b0, b, fd) && FieldOk(fd) && fd.kind.Kv?
    requires |v| <= limit < TWO63 && KeepOk(h, b0, fd, v, k) && At(s, b.p, KvEnc(h, v, k))
    ensures var r := KvB(h, s, b, fd, limit);
      && Found(b, KvEnc(h, v, k), VecBytes(fd.kind, fd.j, v), [Section(fd, b.size + 8, |v|)], r)
      && Ready(h, b0, r, Field(fd.kind, fd.i, fd.j + 1))
  {
    hide Ready, NameOf, MovedB, SectionB, HashesB, FieldOk, FrameItems, U64, HashBytes, ChunkHashes;
    var name := NameOf(fd);
    var tail := U64(ChunkCount(|v|)) + HashBytes(ChunkHashes(h, v));
    ReadyBase(h, b0, b, fd);
    AtSplit(s, b.p, U64(|v|) + U64(k) + v[k..], tail);
    AtSplit(s, b.p, U64(|v|) + U64(k), v[k..]);
    AtSplit(s, b.p, U64(|v|), U64(k));
    U64Word(|v|);
    U64Word(k);
    var fr := Frame(b, U64(|v|));
    var m := fr.(p := b.p + 16);
    SectionTakes(s, m, fd, k, v);
    var b1 := SectionB(s, m, fd, k, |v|);
    var base := ChunksOf(b.chunks, name);
    HashesTake(h, s, b1, name, k, v, base);
    var r := KvB(h, s, b, fd, limit);
    assert r == HashesB(h, s, b1, name, k, |v|, base);
    FieldReady(h, b0, b, fd, |v|, m, v, r);
  }

  lemma KeepLen(h: Hashes, b0: Reb, fd: Field, v: Bytes, k: nat)
    requires b0.Reb? && FieldOk(fd) && KeepOk(h, b0, fd, v, k)
    ensures k <= |v|
  {
  }

  lemma FieldFinds(h: Hashes, s: Bytes, b0: Reb, b: Reb, fd: Field, v: Bytes, k: nat, limit: nat)
    requires InS(s, b) && b0.Reb? && Ready(h, b0, b, fd) && FieldOk(fd)
    requires VecOk(fd.kind, fd.j, v) && |v| <= limit < TWO63 && (fd.kind.Kv? ==> Shares(b0, fd, v, k)) && ChunksHeld(h, b0.chunks, b0.secs)
    requires At(s, b.p, FieldEnc(h, fd, v, k))
    ensures var r := FieldB(h, s, b, fd, limit);
      && Found(b, FieldEnc(h, fd, v, k), VecBytes(fd.kind, fd.j, v), [Section(fd, b.size + 8, |v|)], r)
      && Ready(h, b0, r, Field(fd.kind, fd.i, fd.j + 1))
  {
    hide Ready, Found, KvB, WholeB, VecBytes, KeepOk, ChunksHeld, Shares;
    if fd.kind.Kv? {
      SharesKeeps(h, b0, fd, v, k);
      assert k <= |v| by { KeepLen(h, b0, fd, v, k); }
      KvFinds(h, s, b0, b, fd, v, k, limit);
    } else {
      WholeFinds(h, s, b0, b, fd, v, limit);
    }
  }

  lemma StayFound(b: Reb, fd: Field)
    requires b.Reb? && RebOk(b, fd)
    ensures Found(b, [], [], [], b)
  {
    hide MovedB, RebOk;
    StayB(b, fd);
  }

  lemma ReadyReb(h: Hashes, b0: Reb, b: Reb, fd: Field)
    requires b0.Reb? && Ready(h, b0, b, fd)
    ensures b.Reb? && RebOk(b, fd)
  {
    hide RebOk, Untouched, Sound, KvOnly;
  }

  lemma FoundIs(b: Reb, enc: Bytes, x: Bytes, secs: seq<Section>, r: Reb)
    requires Found(b, enc, x, secs, r)
    ensures b.Reb? && r.Reb? && r.p == b.p + |enc| && r.size == b.size + |x|
  {
    hide Asm;
  }

  lemma FoundOut(b: Reb, enc: Bytes, x: Bytes, secs: seq<Section>, r: Reb)
    requires Found(b, enc, x, secs, r) && b.out == []
    ensures r.out == secs
  {
    hide Asm;
  }

  lemma {:induction false} FieldsFind(h: Hashes, s: Bytes, b0: Reb, b: Reb, kind: Kind, i: nat, vecs: List<Bytes>, K: Keeps, limit: nat)
    requires InS(s, b) && b0.Reb? && RecIndexOk(kind, i) && Len(vecs) <= PartCount(kind) && Ready(h, b0, b, Field(kind, i, 0))
    requires VecsOk(kind, vecs) && |VecsBytes(kind, vecs)| <= limit < TWO63 && FieldsKeep(b0, kind, i, vecs, K)
    requires ChunksHeld(h, b0.chunks, b0.secs)
    requires At(s, b.p, FieldsEnc(h, kind, i, vecs, K))
    ensures var r := FieldsB(h, s, b, kind, i, Len(vecs), limit);
      && Found(b, FieldsEnc(h, kind, i, vecs, K), VecsBytes(kind, vecs), VecsSections(kind, i, vecs, b.size), r)
      && Ready(h, b0, r, Field(kind, i, Len(vecs)))
  {
    hide Ready, Found, FieldB, FieldEnc, Shares, VecOk, VecBytes, ChunksHeld;
    ReadyReb(h, b0, b, Field(kind, i, 0));
    if vecs.Nil? {
      StayFound(b, Field(kind, i, 0));
    } else {
      var j := Len(vecs.init);
      var fd := Field(kind, i, j);
      var e1, e2 := FieldsEnc(h, kind, i, vecs.init, K), FieldEnc(h, fd, vecs.last, K(fd));
      AtSplit(s, b.p, e1, e2);
      VecLength(kind, j, vecs.last);
      FieldsFind(h, s, b0, b, kind, i, vecs.init, K, limit);
      var m := FieldsB(h, s, b, kind, i, j, limit);
      FoundIs(b, e1, VecsBytes(kind, vecs.init), VecsSections(kind, i, vecs.init, b.size), m);
      FieldFinds(h, s, b0, m, fd, vecs.last, K(fd), limit);
      FoundTwice(b, e1, VecsBytes(kind, vecs.init), VecsSections(kind, i, vecs.init, b.size), m,
                 e2, VecBytes(kind, j, vecs.last), [Section(fd, m.size + 8, |vecs.last|)], FieldsB(h, s, b, kind, i, j + 1, limit));
    }
  }

  lemma VecLength(kind: Kind, j: nat, v: Bytes)
    ensures |VecBytes(kind, j, v)| == 8 + |v|
  {
  }

  lemma SkipTakes(h: Hashes, s: Bytes, b0: Reb, b: Reb, x: Bytes, fd: Field)
    requires InS(s, b) && b0.Reb? && Ready(h, b0, b, fd) && At(s, b.p, x)
    ensures var r := SkipB(s, b, |x|); Found(b, x, x, [], r) && Ready(h, b0, r, fd)
  {
    hide Ready, MovedB, FrameItems;
    ReadyReb(h, b0, b, fd);
    FrameReady(h, b0, b, x, b.p + |x|, fd);
  }

  lemma LaterReady(h: Hashes, b0: Reb, b: Reb, a: Field, c: Field)
    requires b0.Reb? && Ready(h, b0, b, a) && Before(a, c)
    ensures Ready(h, b0, b, c)
  {
    hide RebOk, Sound, KvOnly, NameOf, FileOf, HaveLen, ChunksOf;
    assert RebOk(b, c) by { LaterB(b, a, c); }
    assert forall g :: Before(g, a) ==> Before(g, c);
  }

  lemma RecFindsB(h: Hashes, s: Bytes, b0: Reb, b: Reb, kind: Kind, i: nat, rec: Rec, K: Keeps, limit: nat)
    requires InS(s, b) && b0.Reb? && RecIndexOk(kind, i) && Ready(h, b0, b, Field(kind, i, 0))
    requires RecOk(kind, rec) && |RecBytes(kind, rec)| <= limit < TWO63 && FieldsKeep(b0, kind, i, rec.vecs, K)
    requires ChunksHeld(h, b0.chunks, b0.secs)
    requires At(s, b.p, RecEnc(h, kind, i, rec, K))
    ensures var r := RecB(h, s, b, kind, i, limit);
      && Found(b, RecEnc(h, kind, i, rec, K), RecBytes(kind, rec), RecSections(kind, i, rec, b.size), r)
      && Ready(h, b0, r, Field(kind, i + 1, 0))
  {
    hide Ready, Found, FieldsB, SkipB, FieldsEnc, VecsBytes, VecsSections, FieldsKeep, VecsOk, Len;
    var n, fd := PartCount(kind), Field(kind, i, 0);
    var e, x := FieldsEnc(h, kind, i, rec.vecs, K), VecsBytes(kind, rec.vecs);
    ReadyReb(h, b0, b, fd);
    var r := RecB(h, s, b, kind, i, limit);
    if kind.Kv? {
      assert rec.post == [];
      assert rec.pre + e + [] == rec.pre + e && rec.pre + x + [] == rec.pre + x;
      AtSplit(s, b.p, rec.pre, e);
      SkipTakes(h, s, b0, b, rec.pre, fd);
      var b1 := SkipB(s, b, 56);
      FoundIs(b, rec.pre, rec.pre, [], b1);
      FieldsFind(h, s, b0, b1, kind, i, rec.vecs, K, limit);
      FoundThen(b, rec.pre, rec.pre, b1, e, x, VecsSections(kind, i, rec.vecs, b1.size), r);
    } else {
      assert rec.pre == [];
      assert [] + e == e && [] + x == x;
      AtSplit(s, b.p, e, rec.post);
      FieldsFind(h, s, b0, b, kind, i, rec.vecs, K, limit);
      var b2, secs := FieldsB(h, s, b, kind, i, n, limit), VecsSections(kind, i, rec.vecs, b.size);
      FoundIs(b, e, x, secs, b2);
      SkipTakes(h, s, b0, b2, rec.post, Field(kind, i, n));
      FoundTwice(b, e, x, secs, b2, rec.post, rec.post, [], r);
      assert secs + [] == secs;
    }
    LaterReady(h, b0, r, Field(kind, i, n), Field(kind, i + 1, 0));
  }

  lemma {:induction false} RecsFindB(h: Hashes, s: Bytes, b0: Reb, b: Reb, kind: Kind, rs: List<Rec>, K: Keeps, limit: nat)
    requires InS(s, b) && b0.Reb? && !kind.Live? && Ready(h, b0, b, Field(kind, 0, 0))
    requires RecsOk(kind, rs) && Len(rs) < TWO64 && |RecsBytes(kind, rs)| <= limit < TWO63 && RecsKeep(b0, kind, rs, K)
    requires ChunksHeld(h, b0.chunks, b0.secs)
    requires At(s, b.p, RecsEnc(h, kind, rs, K))
    ensures var r := RecsB(h, s, b, kind, Len(rs), limit);
      && Found(b, RecsEnc(h, kind, rs, K), RecsBytes(kind, rs), RecsSections(kind, rs, b.size), r)
      && Ready(h, b0, r, Field(kind, Len(rs), 0))
  {
    hide Ready, Found, RecB, RecEnc, RecBytes, RecSections, RecOk, FieldsKeep;
    ReadyReb(h, b0, b, Field(kind, 0, 0));
    if rs.Nil? {
      StayFound(b, Field(kind, 0, 0));
    } else {
      var n := Len(rs.init);
      var e1, e2 := RecsEnc(h, kind, rs.init, K), RecEnc(h, kind, n, rs.last, K);
      AtSplit(s, b.p, e1, e2);
      RecsFindB(h, s, b0, b, kind, rs.init, K, limit);
      var m := RecsB(h, s, b, kind, n, limit);
      FoundIs(b, e1, RecsBytes(kind, rs.init), RecsSections(kind, rs.init, b.size), m);
      RecKept(kind, rs.last);
      RecFindsB(h, s, b0, m, kind, n, rs.last, K, limit);
      FoundTwice(b, e1, RecsBytes(kind, rs.init), RecsSections(kind, rs.init, b.size), m,
                 e2, RecBytes(kind, rs.last), RecSections(kind, n, rs.last, m.size), RecsB(h, s, b, kind, n + 1, limit));
    }
  }

  lemma RecKept(kind: Kind, r: Rec)
    requires RecOk(kind, r)
    ensures Len(r.vecs) <= PartCount(kind)
  {
  }

  lemma GroupFindsB(h: Hashes, s: Bytes, b0: Reb, b: Reb, kind: Kind, rs: List<Rec>, K: Keeps, most: nat, limit: nat)
    requires InS(s, b) && b0.Reb? && !kind.Live? && most < TWO64 && Ready(h, b0, b, Field(kind, 0, 0))
    requires RecsOk(kind, rs) && Len(rs) <= most && |RecsBytes(kind, rs)| <= limit < TWO63 && RecsKeep(b0, kind, rs, K)
    requires ChunksHeld(h, b0.chunks, b0.secs)
    requires At(s, b.p, GroupEnc(h, kind, rs, K))
    ensures var r := GroupB(h, s, b, kind, most, limit);
      && Found(b, GroupEnc(h, kind, rs, K), GroupBytes(kind, rs), RecsSections(kind, rs, b.size + 8), r)
      && Ready(h, b0, r, Field(kind, TWO64, 0))
  {
    hide Ready, Found, RecsB, CountB, RecsEnc, RecsBytes, RecsSections, RecsOk, RecsKeep, U64, Len, FrameItems;
    var n, fd := Len(rs), Field(kind, 0, 0);
    ReadyReb(h, b0, b, fd);
    AtSplit(s, b.p, U64(n), RecsEnc(h, kind, rs, K));
    CountTakes(s, b, n);
    FrameReady(h, b0, b, U64(n), b.p + 8, fd);
    var fr := Frame(b, U64(n));
    var b1 := fr.(p := b.p + 8);
    CountFound(b, n, b1);
    RecsFindB(h, s, b0, b1, kind, rs, K, limit);
    FoundThen(b, U64(n), U64(n), b1, RecsEnc(h, kind, rs, K), RecsBytes(kind, rs), RecsSections(kind, rs, b1.size),
              GroupB(h, s, b, kind, most, limit));
    LaterReady(h, b0, GroupB(h, s, b, kind, most, limit), Field(kind, n, 0), Field(kind, TWO64, 0));
  }

  lemma CountFound(b: Reb, n: nat, b1: Reb)
    requires MovedB(b, U64(n), [], b1) && b1.p == b.p + 8
    ensures Found(b, U64(n), U64(n), [], b1)
  {
  }

  predicate SessionKeeps(b0: Reb, ss: Session, K: Keeps)
    requires b0.Reb? && SessionOk(ss)
  {
    RecsKeep(b0, Ckpt, ss.ckpts, K) && RecsKeep(b0, Kv, ss.layers, K)
  }

  lemma PayloadFindsB(h: Hashes, s: Bytes, b0: Reb, b: Reb, ss: Session, K: Keeps, limit: nat)
    requires InS(s, b) && b0.Reb? && Ready(h, b0, b, Field(Live, 0, 0)) && SessionOk(ss)
    requires Len(ss.ckpts) <= 64 && Len(ss.layers) <= 1024
    requires |PayloadBytes(ss)| <= limit < TWO63 && SessionKeeps(b0, ss, K) && At(s, b.p, PayloadEnc(h, ss, K))
    requires ChunksHeld(h, b0.chunks, b0.secs)
    ensures var r := PayloadB(h, s, b, limit);
      && Found(b, PayloadEnc(h, ss, K), PayloadBytes(ss), SessionSections(ss, b.size), r)
      && Ready(h, b0, r, Field(Kv, TWO64, 0))
  {
    hide Ready, Found, RecB, GroupB, SkipB, RecEnc, GroupEnc, RecBytes, RecsBytes, GroupBytes, RecSections, RecsSections, RecOk, RecsOk, Len, RecsKeep, FieldsKeep;
    var x1, x2 := ss.geometry, RecBytes(Live, ss.live);
    var x3, x4 := GroupBytes(Ckpt, ss.ckpts), GroupBytes(Kv, ss.layers);
    var e2, e3, e4 := RecEnc(h, Live, 0, ss.live, K), GroupEnc(h, Ckpt, ss.ckpts, K), GroupEnc(h, Kv, ss.layers, K);
    ReadyReb(h, b0, b, Field(Live, 0, 0));
    AtSplit(s, b.p, x1 + e2 + e3, e4);
    AtSplit(s, b.p, x1 + e2, e3);
    AtSplit(s, b.p, x1, e2);
    GroupLength(Ckpt, ss.ckpts);
    GroupLength(Kv, ss.layers);
    SkipTakes(h, s, b0, b, x1, Field(Live, 0, 0));
    var b1 := SkipB(s, b, GEOMETRY);
    FoundIs(b, x1, x1, [], b1);
    assert FieldsKeep(b0, Live, 0, ss.live.vecs, K) by { RecKept(Live, ss.live); LiveKeeps(b0, ss.live.vecs, K); }
    RecFindsB(h, s, b0, b1, Live, 0, ss.live, K, limit);
    var b2 := RecB(h, s, b1, Live, 0, limit);
    FoundIs(b1, e2, x2, RecSections(Live, 0, ss.live, b1.size), b2);
    LaterReady(h, b0, b2, Field(Live, 1, 0), Field(Ckpt, 0, 0));
    GroupFindsB(h, s, b0, b2, Ckpt, ss.ckpts, K, MAX_CKPTS, limit);
    var b3 := GroupB(h, s, b2, Ckpt, MAX_CKPTS, limit);
    FoundIs(b2, e3, x3, RecsSections(Ckpt, ss.ckpts, b2.size + 8), b3);
    LaterReady(h, b0, b3, Field(Ckpt, TWO64, 0), Field(Kv, 0, 0));
    GroupFindsB(h, s, b0, b3, Kv, ss.layers, K, MAX_LAYERS, limit);
    var b4 := GroupB(h, s, b3, Kv, MAX_LAYERS, limit);
    FoundThen(b, x1, x1, b1, e2, x2, RecSections(Live, 0, ss.live, b1.size), b2);
    FoundTwice(b, x1 + e2, x1 + x2, RecSections(Live, 0, ss.live, b1.size), b2, e3, x3, RecsSections(Ckpt, ss.ckpts, b2.size + 8), b3);
    FoundTwice(b, x1 + e2 + e3, x1 + x2 + x3, RecSections(Live, 0, ss.live, b1.size) + RecsSections(Ckpt, ss.ckpts, b2.size + 8), b3,
               e4, x4, RecsSections(Kv, ss.layers, b3.size + 8), b4);
  }

  lemma {:induction false} LiveKeeps(b0: Reb, vecs: List<Bytes>, K: Keeps)
    requires b0.Reb? && Len(vecs) <= PartCount(Live)
    ensures FieldsKeep(b0, Live, 0, vecs, K)
  {
    if vecs.Snoc? {
      LiveKeeps(b0, vecs.init, K);
    }
  }

  lemma GroupLength(kind: Kind, rs: List<Rec>)
    ensures |GroupBytes(kind, rs)| == 8 + |RecsBytes(kind, rs)|
  {
  }

  // ---- The whole delta ----

  function EngineHead(hd: EHeader, reserved: nat): (r: Bytes)
    ensures |r| == 72
  {
    ENGINE_MAGIC + LE(1, 4) + LE(ENGINE_HEADER, 4) + U64(hd.model) + U64(hd.config) + U64(hd.payload)
      + U64(hd.base) + U64(hd.new_) + U64(hd.fileSize) + U64(reserved)
  }

  function EngineHeaderBytes(h: Hashes, hd: EHeader, reserved: nat): (r: Bytes)
    ensures |r| == ENGINE_HEADER
  {
    EngineHead(hd, reserved) + U64(h.sess(EngineHead(hd, reserved)))
  }

  function EngineStream(h: Hashes, hd: EHeader, reserved: nat, payload: Bytes): Bytes {
    EngineHeaderBytes(h, hd, reserved) + payload + (U64(h.sess(payload)) + ENGINE_END)
  }

  predicate HeaderFits(hd: EHeader) {
    hd.model < TWO64 && hd.config < TWO64 && hd.payload < TWO64 && hd.base < TWO64 && hd.new_ < TWO64 && hd.fileSize < TWO64
  }

  lemma EngineHeaderReads(h: Hashes, hd: EHeader, reserved: nat, rest: Bytes)
    requires HeaderFits(hd)
    ensures ReadEngineHeader(h, EngineHeaderBytes(h, hd, reserved) + rest) == Some(hd)
  {
    hide U64, LE, Word;
    var x := EngineHead(hd, reserved);
    var s := EngineHeaderBytes(h, hd, reserved) + rest;
    assert s[..72] == x && s[72..80] == U64(h.sess(x));
    assert s[..8] == ENGINE_MAGIC && s[8..12] == LE(1, 4) && s[12..16] == LE(ENGINE_HEADER, 4);
    assert s[16..24] == U64(hd.model) && s[24..32] == U64(hd.config) && s[32..40] == U64(hd.payload);
    assert s[40..48] == U64(hd.base) && s[48..56] == U64(hd.new_) && s[56..64] == U64(hd.fileSize);
    Pow256Values();
    WordOfLE(1, 4);
    WordOfLE(ENGINE_HEADER, 4);
    U64Word(hd.model);
    U64Word(hd.config);
    U64Word(hd.payload);
    U64Word(hd.base);
    U64Word(hd.new_);
    U64Word(hd.fileSize);
    U64Word(h.sess(x));
  }

  // The session as a plain STRSESS file, header checksum and trailer included.
  function SessionFile(h: Hashes, model: nat, config: nat, ss: Session): Bytes {
    var x := SessHeaderBytes(h, model, config, |PayloadBytes(ss)|) + PayloadBytes(ss);
    x + (U64(h.sess(PayloadBytes(ss))) + SESS_END)
  }

  // The base replica as the rebuild starts from it.
  function BaseReb(d: Disk): Reb
    requires Published(d)
  {
    Reb(0, [], [], Have(d.state.value.items), d.state.value.chunks, map[], 0, d.secs, [])
  }

  // The header the engine writes for this save.
  function HeaderFor(d: Disk, ss: Session, payload: Bytes, base: nat, new_: nat): EHeader
    requires Published(d)
  {
    EHeader(d.state.value.model, d.state.value.config, |payload|, base, new_, SESS_HEADER + |PayloadBytes(ss)| + SESS_TRAILER)
  }

  // The engine may write this save against the replica: the sizes fit, the counts are within what
  // a receiver takes, and what it keeps of each K/V buffer the replica holds.
  ghost predicate Saveable(h: Hashes, d: Disk, ss: Session, K: Keeps, base: nat, new_: nat) {
    && Published(d) && SessionOk(ss) && Len(ss.ckpts) <= 64 && Len(ss.layers) <= 1024
    && HeaderFits(HeaderFor(d, ss, PayloadEnc(h, ss, K), base, new_))
    && SESS_HEADER + |PayloadBytes(ss)| + SESS_TRAILER < TWO63
    && d.state.value.saveId == SaveIdString(base)
    && ChunksHeld(h, d.state.value.chunks, d.secs) && KvOnly(d.state.value.chunks)
    && SessionKeeps(BaseReb(d), ss, K)
  }

  lemma StartReady(h: Hashes, d: Disk, hd: EHeader)
    requires Published(d) && KvOnly(d.state.value.chunks)
    ensures var b := StartReb(h, d, hd); Ready(h, BaseReb(d), b, Field(Live, 0, 0)) && b.p == ENGINE_HEADER
    ensures StartReb(h, d, hd).size == SESS_HEADER && StartReb(h, d, hd).out == []
    ensures Asm(StartReb(h, d, hd)) == Some(SessHeaderBytes(h, hd.model, hd.config, 0))
  {
    hide RebOk, Asm, NameOf, KvOnly, SessHeaderBytes, Have;
    StartOk(h, d, hd);
  }

  // The engine's delta is accepted, and leaves a replica whose payload is the session's and whose
  // recorded chunk hashes are its sections'.
  lemma EngineAccepts(h: Hashes, d: Disk, ss: Session, K: Keeps, base: nat, new_: nat, reserved: nat)
    requires Saveable(h, d, ss, K, base, new_)
    ensures var hd := HeaderFor(d, ss, PayloadEnc(h, ss, K), base, new_);
      var s := EngineStream(h, hd, reserved, PayloadEnc(h, ss, K));
      var b := PayloadB(h, s, StartReb(h, d, hd), hd.fileSize);
      && InS(s, StartReb(h, d, hd)) && ReadEngineHeader(h, s) == Some(hd)
      && b.Reb? && b.p <= |s| && Ready(h, BaseReb(d), b, Field(Kv, TWO64, 0)) && b.size == SESS_HEADER + |PayloadBytes(ss)|
      && Asm(b) == Some(SessHeaderBytes(h, hd.model, hd.config, 0) + PayloadBytes(ss))
      && b.p == ENGINE_HEADER + |PayloadEnc(h, ss, K)| && TrailerOk(h, s, b, hd) && b.out == SessionSections(ss, SESS_HEADER)
  {
    hide Ready, MovedB, PayloadB, PayloadEnc, PayloadBytes, SessionOk, SessionKeeps, StartReb, EngineHeaderBytes, ReadEngineHeader, Asm, ChunksHeld, KvOnly, SessHeaderBytes, SessionSections, U64, BaseReb, Len, Word;
    var enc := PayloadEnc(h, ss, K);
    var hd := HeaderFor(d, ss, enc, base, new_);
    var hb, tail := EngineHeaderBytes(h, hd, reserved), U64(h.sess(enc)) + ENGINE_END;
    var s := EngineStream(h, hd, reserved, enc);
    assert s == hb + (enc + tail);
    EngineHeaderReads(h, hd, reserved, enc + tail);
    StartReady(h, d, hd);
    AtConcat(hb, enc, tail);
    var b0, b1 := BaseReb(d), StartReb(h, d, hd);
    assert b0.Reb? && b0.chunks == d.state.value.chunks && b0.secs == d.secs by { BaseIs(d); }
    ReadyReb(h, b0, b1, Field(Live, 0, 0));
    PayloadFindsB(h, s, b0, b1, ss, K, hd.fileSize);
    var b := PayloadB(h, s, b1, hd.fileSize);
    FoundIs(b1, enc, PayloadBytes(ss), SessionSections(ss, b1.size), b);
    SessionAsm(b1, b, PayloadBytes(ss), SessionSections(ss, SESS_HEADER), SessHeaderBytes(h, hd.model, hd.config, 0));
    FoundOut(b1, enc, PayloadBytes(ss), SessionSections(ss, SESS_HEADER), b);
    assert s[ENGINE_HEADER..b.p] == enc && s[b.p..b.p + 8] == U64(h.sess(enc)) && s[b.p + 8..b.p + 16] == ENGINE_END;
    U64Word(h.sess(enc));
  }

  lemma BaseIs(d: Disk)
    requires Published(d)
    ensures BaseReb(d).Reb? && BaseReb(d).chunks == d.state.value.chunks && BaseReb(d).secs == d.secs
  {
  }

  // An item's span of the assembled file is its section's file.
  lemma {:induction false} SpanIs(items: seq<RItem>, frames: Bytes, secs: map<Name, Bytes>, k: nat)
    requires k < |items| && items[k].section != "" && Assemble(items, frames, secs).Some?
    ensures items[k].section in secs && items[k].len <= |secs[items[k].section]|
    ensures Span(items, Assemble(items, frames, secs).value, k) == secs[items[k].section][..items[k].len]
  {
    var n := |items| - 1;
    var x := Assemble(items, frames, secs).value;
    TotalSplit(items, k);
    if k < n {
      SpanIs(items[..n], frames, secs, k);
      var a := Assemble(items[..n], frames, secs).value;
      TotalSplit(items[..n], k);
      assert items[..n][..k] == items[..k];
      assert x[..|a|] == a;
      var lo := Total(items[..k]);
      assert x[lo..lo + items[k].len] == a[lo..lo + items[k].len];
    }
  }

  lemma SoundChunks(h: Hashes, items: seq<RItem>, frames: Bytes, secs: map<Name, Bytes>, chunks: map<Name, seq<Word64>>)
    requires Sound(h, items, secs, chunks) && Assemble(items, frames, secs).Some?
    ensures ChunksOk(h, items, chunks, Assemble(items, frames, secs).value)
  {
    hide Assemble, ChunkHashes, Span, Total;
    var x := Assemble(items, frames, secs).value;
    forall k | 0 <= k < |items| && items[k].section != "" && items[k].section in chunks
      ensures ChunkHashes(h, Span(items, x, k)) == chunks[items[k].section]
    {
      SpanIs(items, frames, secs, k);
      assert secs[items[k].section][..items[k].len] == secs[items[k].section];
    }
  }

  // The engine rebuild: for every base replica and every session the engine may save against it,
  // the delta is applied and the replica materialises to the session's file.
  lemma EngineRebuilds(h: Hashes, d: Disk, ss: Session, K: Keeps, base: nat, new_: nat, reserved: nat, stale: Bytes)
    requires Saveable(h, d, ss, K, base, new_)
    ensures var hd := HeaderFor(d, ss, PayloadEnc(h, ss, K), base, new_);
      var r := PutEngine(h, d, EngineStream(h, hd, reserved, PayloadEnc(h, ss, K)), hd.fileSize, SaveIdString(new_));
      r.Rebuilt? && Materialized(h, r.disk, stale) == Some(SessionFile(h, hd.model, hd.config, ss))
  {
    hide Saveable, Ready, PayloadB, PayloadEnc, PayloadBytes, StartReb, EngineStream, ReadEngineHeader, Asm, SessHeaderBytes, U64, Word, Assemble, SaveIdString;
    var enc := PayloadEnc(h, ss, K);
    assert Published(d) && SessHeaderFits(d, ss) && d.state.value.saveId == SaveIdString(base) by { SaveableIs(h, d, ss, K, base, new_); }
    var hd := HeaderFor(d, ss, enc, base, new_);
    var s := EngineStream(h, hd, reserved, enc);
    EngineAccepts(h, d, ss, K, base, new_, reserved);
    var b := PayloadB(h, s, StartReb(h, d, hd), hd.fileSize);
    assert b == EngineReb(h, d, s);
    ReadyReb(h, BaseReb(d), b, Field(Kv, TWO64, 0));
    RebFacts(b);
    ReadySound(h, BaseReb(d), b);
    var x := PayloadBytes(ss);
    var hdr := SessHeaderBytes(h, hd.model, hd.config, |x|);
    var frames := hdr + b.frames[SESS_HEADER..];
    AsmIs(b);
    HeaderSet(b.items, b.frames, b.secs, hdr);
    KeepHeld(b.items, frames, b.secs, b.have);
    SoundHeld(h, b.items, b.secs, b.chunks, b.have);
    SoundChunks(h, b.items, frames, b.secs - b.have.Keys, b.chunks);
    var y := Assemble(b.items, frames, b.secs - b.have.Keys).value;
    assert y == hdr + x;
    assert y[SESS_HEADER..] == x;
  }

  predicate SessHeaderFits(d: Disk, ss: Session) {
    SESS_HEADER + |PayloadBytes(ss)| + SESS_TRAILER < TWO63
  }

  lemma SaveableIs(h: Hashes, d: Disk, ss: Session, K: Keeps, base: nat, new_: nat)
    requires Saveable(h, d, ss, K, base, new_)
    ensures Published(d) && SessHeaderFits(d, ss) && d.state.value.saveId == SaveIdString(base)
  {
  }

  lemma AsmIs(b: Reb)
    requires b.Reb?
    ensures Asm(b) == Assemble(b.items, b.frames, b.secs)
  {
  }

  lemma ReadySound(h: Hashes, b0: Reb, b: Reb)
    requires b0.Reb? && Ready(h, b0, b, Field(Kv, TWO64, 0))
    ensures Sound(h, b.items, b.secs, b.chunks)
  {
  }

  lemma SoundHeld(h: Hashes, items: seq<RItem>, secs: map<Name, Bytes>, chunks: map<Name, seq<Word64>>, have: map<Name, nat>)
    requires Sound(h, items, secs, chunks) && Spent(items, have)
    ensures Sound(h, items, secs - have.Keys, chunks)
  {
  }
}

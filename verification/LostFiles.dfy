/**
 An engine delta against a replica whose section files are not what its state says. Only the state
 is checked, so the delta is taken all the same, and the hashes it records are wrong. Such a replica
 is what a removal leaves that stopped before the state file went.
 */
module LostFiles {
  import opened Bytes
  import opened Options
  import opened Hashing
  import opened SessFile
  import opened SessGrammar
  import opened SectionNames
  import opened Delta
  import opened DeltaStream
  import opened Replica
  import opened Replication
  import opened ManifestCache
  import opened EngineDelta
  import opened EngineKeeps
  import opened EngineSound
  import opened EngineRebuild
  import opened Store
  import opened StoreRuns

  // ---- What a rebuild takes does not depend on the files ----

  // Two rebuilds at the same point, over other section files.
  predicate Twin(b: Reb, c: Reb) {
    if b.Reb? then c.Reb? && c == b.(secs := c.secs) else c.Broken?
  }

  // What the second holds of a section both wrote: the base's file cut or extended with zeros to
  // what was kept, then the same bytes.
  predicate SameTail(f0: Bytes, keep: nat, f: Bytes, g: Bytes) {
    keep <= |f| && g == Truncate(f0, keep) + f[keep..]
  }

  // One section: not written yet, or written to the same tail.
  predicate Tailed(c0: Reb, name: Name, b: Reb, c: Reb)
    requires c0.Reb?
  {
    b.Reb? && c.Reb? ==> (
      if name in b.keeps then name in b.secs && name in c.secs && name !in b.have
        && SameTail(FileOf(c0.secs, name), b.keeps[name], b.secs[name], c.secs[name])
        && |b.secs[name]| <= b.keeps[name] + b.p
      else FileOf(c.secs, name) == FileOf(c0.secs, name))
  }

  predicate Apart(c0: Reb, name: Name, b: Reb, c: Reb)
    requires c0.Reb?
  {
    Twin(b, c) && Tailed(c0, name, b, c)
  }

  lemma SkipApart(s: Bytes, c0: Reb, name: Name, b: Reb, c: Reb, n: nat)
    requires InS(s, b) && InS(s, c) && c0.Reb? && Apart(c0, name, b, c)
    ensures Apart(c0, name, SkipB(s, b, n), SkipB(s, c, n))
    ensures Apart(c0, name, CountB(s, b).0, CountB(s, c).0) && CountB(s, b).1 == CountB(s, c).1
  {
    hide SameTail, FrameItems, U64, Word;
  }

  lemma SectionApart(s: Bytes, c0: Reb, name: Name, b: Reb, c: Reb, fd: Field, keep: nat, size: nat)
    requires InS(s, b) && InS(s, c) && FieldOk(fd) && c0.Reb? && Apart(c0, name, b, c)
    ensures Apart(c0, name, SectionB(s, b, fd, keep, size), SectionB(s, c, fd, keep, size))
  {
    hide NameOf, Truncate;
    var r, t := SectionB(s, b, fd, keep, size), SectionB(s, c, fd, keep, size);
    if r.Reb? && NameOf(fd) == name {
      var data := s[b.p..b.p + size - keep];
      TailOf(FileOf(b.secs, name), FileOf(c.secs, name), keep, data);
      if name in b.keeps {
        assert keep == 0;
        TailOf(FileOf(b.secs, name), FileOf(c0.secs, name), keep, data);
        assert Truncate(FileOf(c.secs, name), 0) == Truncate(FileOf(c0.secs, name), 0) == [];
      }
    }
  }

  lemma TailOf(f: Bytes, g: Bytes, keep: nat, data: Bytes)
    ensures SameTail(g, keep, Truncate(f, keep) + data, Truncate(g, keep) + data)
  {
    assert (Truncate(f, keep) + data)[keep..] == data;
  }

  lemma HashesApart(h: Hashes, s: Bytes, c0: Reb, name: Name, b: Reb, c: Reb, sec: Name, keep: nat, size: nat, base: seq<Word64>)
    requires InS(s, b) && InS(s, c) && c0.Reb? && Apart(c0, name, b, c)
    requires b.Reb? ==> var f, g := FileOf(b.secs, sec), FileOf(c.secs, sec); keep <= |f| && keep <= |g| && f[keep..] == g[keep..]
    ensures Apart(c0, name, HashesB(h, s, b, sec, keep, size, base), HashesB(h, s, c, sec, keep, size, base))
  {
    hide SameTail, Words, ChunkHashes, Word;
  }

  lemma KvApart(h: Hashes, s: Bytes, c0: Reb, name: Name, b: Reb, c: Reb, fd: Field, limit: nat)
    requires InS(s, b) && InS(s, c) && FieldOk(fd) && c0.Reb? && Apart(c0, name, b, c)
    ensures Apart(c0, name, KvB(h, s, b, fd, limit), KvB(h, s, c, fd, limit))
  {
    hide SameTail, HashesB, Word, NameOf, FrameItems, U64, FieldOk;
    if b.Reb? && b.p + 16 <= |s| {
      var size, keep := Word(s[b.p..b.p + 8]), Word(s[b.p + 8..b.p + 16]);
      if size <= limit && keep <= size && keep % CHUNK == 0 {
        var sec := NameOf(fd);
        var fb, fc := Frame(b, U64(size)), Frame(c, U64(size));
        var m, k := fb.(p := b.p + 16), fc.(p := c.p + 16);
        SectionApart(s, c0, name, m, k, fd, keep, size);
        var m1, k1 := SectionB(s, m, fd, keep, size), SectionB(s, k, fd, keep, size);
        if m1.Reb? {
          var data := s[m.p..m.p + size - keep];
          assert m1.secs[sec][keep..] == data && k1.secs[sec][keep..] == data;
        }
        HashesApart(h, s, c0, name, m1, k1, sec, keep, size, ChunksOf(b.chunks, sec));
      }
    }
  }

  lemma FieldApart(h: Hashes, s: Bytes, c0: Reb, name: Name, b: Reb, c: Reb, fd: Field, limit: nat)
    requires InS(s, b) && InS(s, c) && FieldOk(fd) && c0.Reb? && Apart(c0, name, b, c)
    ensures Apart(c0, name, FieldB(h, s, b, fd, limit), FieldB(h, s, c, fd, limit))
  {
    hide KvB, SectionB, CountB, Elem, Tailed;
    if fd.kind.Kv? {
      KvApart(h, s, c0, name, b, c, fd, limit);
    } else {
      SkipApart(s, c0, name, b, c, 0);
      var (b1, n) := CountB(s, b);
      BrokenApart(c0, name);
      SectionApart(s, c0, name, b1, CountB(s, c).0, fd, 0, n * Elem(fd.kind, fd.j));
    }
  }

  lemma BrokenApart(c0: Reb, name: Name)
    requires c0.Reb?
    ensures Apart(c0, name, Broken, Broken)
  {
  }

  lemma {:induction false} FieldsApart(h: Hashes, s: Bytes, c0: Reb, name: Name, b: Reb, c: Reb, kind: Kind, i: nat, k: nat, limit: nat)
    requires InS(s, b) && InS(s, c) && RecIndexOk(kind, i) && k <= PartCount(kind) && c0.Reb? && Apart(c0, name, b, c)
    ensures Apart(c0, name, FieldsB(h, s, b, kind, i, k, limit), FieldsB(h, s, c, kind, i, k, limit))
  {
    hide Apart, FieldB;
    if k > 0 {
      FieldsApart(h, s, c0, name, b, c, kind, i, k - 1, limit);
      FieldApart(h, s, c0, name, FieldsB(h, s, b, kind, i, k - 1, limit), FieldsB(h, s, c, kind, i, k - 1, limit), Field(kind, i, k - 1), limit);
    }
  }

  lemma RecApart(h: Hashes, s: Bytes, c0: Reb, name: Name, b: Reb, c: Reb, kind: Kind, i: nat, limit: nat)
    requires InS(s, b) && InS(s, c) && RecIndexOk(kind, i) && c0.Reb? && Apart(c0, name, b, c)
    ensures Apart(c0, name, RecB(h, s, b, kind, i, limit), RecB(h, s, c, kind, i, limit))
  {
    hide Apart, FieldsB, SkipB;
    SkipApart(s, c0, name, b, c, PreLen(kind));
    var b1 := if kind.Kv? then SkipB(s, b, PreLen(kind)) else b;
    var c1 := if kind.Kv? then SkipB(s, c, PreLen(kind)) else c;
    var n := PartCount(kind);
    FieldsApart(h, s, c0, name, b1, c1, kind, i, n, limit);
    SkipApart(s, c0, name, FieldsB(h, s, b1, kind, i, n, limit), FieldsB(h, s, c1, kind, i, n, limit), PostLen(kind));
  }

  lemma {:induction false} RecsApart(h: Hashes, s: Bytes, c0: Reb, name: Name, b: Reb, c: Reb, kind: Kind, n: nat, limit: nat)
    requires InS(s, b) && InS(s, c) && n <= TWO64 && !kind.Live? && c0.Reb? && Apart(c0, name, b, c)
    ensures Apart(c0, name, RecsB(h, s, b, kind, n, limit), RecsB(h, s, c, kind, n, limit))
  {
    hide Apart, RecB;
    if n > 0 {
      RecsApart(h, s, c0, name, b, c, kind, n - 1, limit);
      RecApart(h, s, c0, name, RecsB(h, s, b, kind, n - 1, limit), RecsB(h, s, c, kind, n - 1, limit), kind, n - 1, limit);
    }
  }

  lemma GroupApart(h: Hashes, s: Bytes, c0: Reb, name: Name, b: Reb, c: Reb, kind: Kind, most: nat, limit: nat)
    requires InS(s, b) && InS(s, c) && !kind.Live? && most <= TWO64 && c0.Reb? && Apart(c0, name, b, c)
    ensures Apart(c0, name, GroupB(h, s, b, kind, most, limit), GroupB(h, s, c, kind, most, limit))
  {
    hide Tailed, RecsB, CountB;
    SkipApart(s, c0, name, b, c, 0);
    BrokenApart(c0, name);
    var (b1, n) := CountB(s, b);
    if n <= most {
      RecsApart(h, s, c0, name, b1, CountB(s, c).0, kind, n, limit);
    }
  }

  lemma PayloadApart(h: Hashes, s: Bytes, c0: Reb, name: Name, b: Reb, c: Reb, limit: nat)
    requires InS(s, b) && InS(s, c) && c0.Reb? && Apart(c0, name, b, c)
    ensures Apart(c0, name, PayloadB(h, s, b, limit), PayloadB(h, s, c, limit))
  {
    hide Apart, RecB, GroupB, SkipB;
    SkipApart(s, c0, name, b, c, GEOMETRY);
    var b1, c1 := SkipB(s, b, GEOMETRY), SkipB(s, c, GEOMETRY);
    RecApart(h, s, c0, name, b1, c1, Live, 0, limit);
    var b2, c2 := RecB(h, s, b1, Live, 0, limit), RecB(h, s, c1, Live, 0, limit);
    GroupApart(h, s, c0, name, b2, c2, Ckpt, MAX_CKPTS, limit);
    GroupApart(h, s, c0, name, GroupB(h, s, b2, Ckpt, MAX_CKPTS, limit), GroupB(h, s, c2, Ckpt, MAX_CKPTS, limit), Kv, MAX_LAYERS, limit);
  }

  // An engine delta taken against one replica is taken against every replica with the same state,
  // whatever its section files hold: the state and frames left are the same, and a section's file
  // differs in what was kept.
  lemma FilesUnchecked(h: Hashes, d: Disk, d': Disk, s: Bytes, wantSize: int, wantId: string, name: Name)
    requires PutEngine(h, d, s, wantSize, wantId).Rebuilt? && d'.state == d.state
    ensures var r, r' := PutEngine(h, d, s, wantSize, wantId), PutEngine(h, d', s, wantSize, wantId);
      && r'.Rebuilt? && r'.keeps == r.keeps && r'.disk.state == r.disk.state && r'.disk.frames == r.disk.frames
      && (name in r.keeps ==>
            && name in r.disk.secs && name in r'.disk.secs
            && SameTail(FileOf(d'.secs, name), r.keeps[name], r.disk.secs[name], r'.disk.secs[name])
            && |r.disk.secs[name]| <= r.keeps[name] + |s|)
  {
    hide PayloadB, Have, SessHeaderBytes, SaveIdString, FrameItems, ReadEngineHeader, SameTail, Word;
    var hd := ReadEngineHeader(h, s).value;
    var b0, c0 := StartReb(h, d, hd), StartReb(h, d', hd);
    PayloadApart(h, s, c0, name, b0, c0, hd.fileSize);
  }

  // A removal stopped before the state file, with a section's file taken or nothing.
  function Stopped(taken: bool): Faults {
    Faults(true, false, false, taken)
  }

  // From every replica against which an engine delta that keeps chunks is good, a removal that
  // stops after the section's file and before the state leads to one against which the delta is
  // still taken, and the hash recorded is then wrong.
  lemma LostChunkKept(h: Hashes, n: Node, s: Bytes, wantSize: int, wantId: string, name: Name)
    requires Published(n.disk) && PutEngine(h, n.disk, s, wantSize, wantId).Rebuilt?
    requires name in PutEngine(h, n.disk, s, wantSize, wantId).keeps && IsKV(name)
    requires var k := PutEngine(h, n.disk, s, wantSize, wantId).keeps[name];
      var base := ChunksOf(n.disk.state.value.chunks, name);
      k / CHUNK <= |base| ==> base[..k / CHUNK] != ChunkHashes(h, Zeros(k))
    ensures var n1 := Node(n.disk.(secs := n.disk.secs - {name}), None);
      var r := PutEngine(h, n1.disk, s, wantSize, wantId);
      && r.Rebuilt? && IsRun(h, [n, n1, Node(r.disk, None)], [Removing(Stopped(name in n.disk.secs)), PutEngineSave(s, wantSize, wantId, SMOOTH)])
      && name in r.disk.state.value.chunks && name in r.disk.secs
      && r.disk.state.value.chunks[name] != ChunkHashes(h, r.disk.secs[name])
  {
    hide PutEngine, ChunkHashes, Have, IsKV, FinishMan;
    var d1 := n.disk.(secs := n.disk.secs - {name});
    FilesUnchecked(h, n.disk, d1, s, wantSize, wantId, name);
    var r := PutEngine(h, d1, s, wantSize, wantId);
    EngineHashesExact(h, d1, s, wantSize, wantId, name);
    assert Truncate(FileOf(d1.secs, name), r.keeps[name]) == Zeros(r.keeps[name]);
    RebuiltComplete(h, d1, s, wantSize, wantId);
    var ns, es := [n, Node(d1, None), Node(r.disk, None)], [Removing(Stopped(name in n.disk.secs)), PutEngineSave(s, wantSize, wantId, SMOOTH)];
    assert d1.secs == n.disk.secs <==> name !in n.disk.secs;
    assert Moves(h, ns[0], es[0], ns[1]);
    assert Moves(h, ns[1], es[1], ns[2]);
    forall i | 0 <= i < |es| ensures Moves(h, ns[i], es[i], ns[i + 1]) {
      assert i == 0 || i == 1;
    }
  }

  // ---- A run that does it ----

  const K0: Name := "kv0.k"

  // A full put of one K/V section v.
  function FirstPlan(h: Hashes, v: Bytes): Plan {
    Plan([Item(K0, 0, |v|, 0)], |v|, h.digest(v), 0, 0)
  }

  function FirstWant(h: Hashes, v: Bytes): Option<FileMeta> {
    Some(FileMeta(|v|, h.digest(v), SaveIdString(0)))
  }

  function FirstState(h: Hashes, v: Bytes): State {
    State(0, 0, |v|, h.digest(v), true, [RItem(K0, |v|, 0)], SaveIdString(0), map[], false)
  }

  lemma FirstInside(h: Hashes, v: Bytes)
    requires |v| < TWO63
    ensures Inside(v, FirstPlan(h, v).items) && PlanOk(FirstPlan(h, v)) && ValidKey(K0) && IsKV(K0)
  {
  }

  lemma FirstPut(h: Hashes, v: Bytes)
    requires |v| < TWO63
    ensures Inside(v, FirstPlan(h, v).items)
    ensures PutDisk(ABSENT, Stream(v, FirstPlan(h, v)), FirstWant(h, v))
         == Some(Disk(Some(FirstState(h, v)), Some([]), map[K0 := v]))
  {
    hide ReadHeader, NextItem, ItemHead, ItemsBytes, HeaderBytes, ReadAll, Tiles, ValidKey, ItemOk, SaveIdString, Stream;
    FirstInside(h, v);
    var p := FirstPlan(h, v);
    var s, hd, it := Stream(v, p), HeaderOf(p), p.items[0];
    RoundTrip(v, p);
    StreamAt(v, p, 0);
    EntryReads(s, v, p, hd, 0);
    LastCursor(v, p, hd);
    assert p.items[..0] == [] && ItemsBytes(v, []) == [] by { NoBytes(v); }
    var a0 := StartAcc(ABSENT, hd);
    var a1 := Acc(CursorAt(v, p, 1), [RItem(K0, |v|, 0)], [], map[K0 := v], map[], map[K0 := 0]);
    assert CursorAt(v, p, 0) == Start(hd) == a0.cur;
    assert NewBytes(v, it) == v && Truncate([], 0) + v == v;
    assert a0.have - {K0} == map[] && a0.secs[K0 := v] == map[K0 := v];
    assert PutStep(s, hd, a0) == Go(a1);
    RunStops(s, hd, a1);
    assert PutRun(s, hd, a0) == Some(a1);
    assert PutHeader(s, FirstWant(h, v)) == Some(hd);
    assert a1.secs - a1.have.Keys == map[K0 := v];
  }

  lemma NoBytes(f: Bytes)
    ensures Inside(f, []) && ItemsBytes(f, []) == []
  {
  }

  // The replica after that put, its chunk hashes recorded.
  function FirstDisk(h: Hashes, v: Bytes): Disk {
    Disk(Some(FirstState(h, v).(chunks := map[K0 := ChunkHashes(h, v)])), Some([]), map[K0 := v])
  }

  lemma FirstLands(h: Hashes, v: Bytes)
    requires |v| < TWO63
    ensures Landed(h, Disk(Some(FirstState(h, v)), Some([]), map[K0 := v]), FirstDisk(h, v))
  {
    hide ChunkHashes, SaveIdString, Fill;
    var e := Disk(Some(FirstState(h, v)), Some([]), map[K0 := v]);
    var items := FirstState(h, v).items;
    assert items[..0] == [] && FinishChunks(h, [], e.secs, []) == map[];
    assert IsKV(K0);
    assert Fill(v, |v|, []) == v;
    assert FinishChunks(h, items, e.secs, []) == map[K0 := ChunkHashes(h, v)];
    assert FirstDisk(h, v) == WithChunks(h, e, []);
  }

  // A put that is refused, and whose removal stops after the section's file, leaves a replica that
  // is published, that no put made, and that has neither a manifest nor a file to serve.
  lemma DebrisPublished(h: Hashes, v: Bytes, stale: Bytes)
    requires |v| < TWO63
    ensures Inside(v, FirstPlan(h, v).items)
    ensures var d1, d2 := FirstDisk(h, v), FirstDisk(h, v).(secs := map[]);
      var ns := [Node(ABSENT, None), Node(d1, None), Node(d2, None)];
      var es := [PutDelta(Stream(v, FirstPlan(h, v)), FirstWant(h, v), SMOOTH), PutDelta([], None, Stopped(true))];
      && IsRun(h, ns, es) && PutDisk(d1, [], None).None?
      && Published(d2) && ManifestOf(h, d2).None? && Materialized(h, d2, stale).None?
      && !Atomic(h, ns[1], es[1], ns[2])
  {
    hide ChunkHashes, SaveIdString, Stream, PutAcc, FinishMan, Fill, FinishChunks, Landed;
    FirstInside(h, v);
    FirstPut(h, v);
    FirstLands(h, v);
    var d1, d2 := FirstDisk(h, v), FirstDisk(h, v).(secs := map[]);
    var ns := [Node(ABSENT, None), Node(d1, None), Node(d2, None)];
    var es := [PutDelta(Stream(v, FirstPlan(h, v)), FirstWant(h, v), SMOOTH), PutDelta([], None, Stopped(true))];
    assert PutDisk(d1, [], None).None? && PutHeader([], None).None? by { NoHeader(d1); }
    assert K0 in d1.secs && d1.secs != d2.secs;
    assert Moves(h, ns[0], es[0], ns[1]);
    assert Moves(h, ns[1], es[1], ns[2]);
    forall i | 0 <= i < |es| ensures Moves(h, ns[i], es[i], ns[i + 1]) {
      assert i == 0 || i == 1;
    }
    var items := d2.state.value.items;
    assert items[..0] == [] && ManSections(h, items, d2.secs).None? && Assemble(items, [], d2.secs).None?;
  }

  lemma NoHeader(d: Disk)
    ensures PutDisk(d, [], None).None? && PutHeader([], None).None?
  {
  }

  // n vectors, all empty but the first.
  function Vecs(v: Bytes, n: nat): List<Bytes> {
    if n == 0 then Nil else Snoc(Vecs(v, n - 1), if n == 1 then v else [])
  }

  // A session whose only content is one K/V buffer.
  function OneBuffer(v: Bytes): Session {
    Session(Zeros(GEOMETRY), Rec([], Vecs([], 7), Zeros(8)), Nil, Snoc(Nil, Rec(Zeros(56), Vecs(v, 5), [])))
  }

  function KeepFirst(k: nat): Keeps {
    fd => if fd == Field(Kv, 0, 0) then k else 0
  }

  lemma {:induction false} VecsFit(kind: Kind, v: Bytes, n: nat)
    requires |v| < TWO63 && (kind.Kv? || v == [])
    ensures Len(Vecs(v, n)) == n && VecsOk(kind, Vecs(v, n)) && |VecsBytes(kind, Vecs(v, n))| <= 8 * n + |v|
    ensures n == 0 ==> VecsBytes(kind, Vecs(v, n)) == []
  {
    hide U64, VecBytes, VecOk;
    if n > 0 {
      VecsFit(kind, v, n - 1);
      var x := if n == 1 then v else [];
      VecFits(kind, n - 1, x);
      VecLength(kind, n - 1, x);
    }
  }

  lemma VecFits(kind: Kind, j: nat, v: Bytes)
    requires |v| < TWO63 && (kind.Kv? || v == [])
    ensures VecOk(kind, j, v)
  {
  }

  lemma {:induction false} HashBytesLength(hs: seq<Word64>)
    ensures |HashBytes(hs)| == 8 * |hs|
  {
    if hs != [] {
      HashBytesLength(hs[..|hs| - 1]);
    }
  }

  lemma FieldEncFits(h: Hashes, fd: Field, v: Bytes, k: nat)
    requires v == [] || (fd.kind.Kv? && |v| == k == CHUNK)
    ensures |FieldEnc(h, fd, v, k)| <= 32
  {
    hide U64, HashBytes, ChunkHashes;
    HashBytesLength(ChunkHashes(h, v));
    VecLength(fd.kind, fd.j, v);
  }

  lemma {:induction false} FieldsEncFit(h: Hashes, kind: Kind, v: Bytes, n: nat)
    requires v == [] || (kind.Kv? && |v| == CHUNK)
    ensures Len(Vecs(v, n)) == n && |FieldsEnc(h, kind, 0, Vecs(v, n), KeepFirst(CHUNK))| <= 32 * n
  {
    hide FieldEnc;
    if n > 0 {
      FieldsEncFit(h, kind, v, n - 1);
      var fd := Field(kind, 0, n - 1);
      FieldEncFits(h, fd, if n == 1 then v else [], KeepFirst(CHUNK)(fd));
    }
  }

  lemma NoRecs(h: Hashes, kind: Kind, K: Keeps)
    ensures RecsOk(kind, Nil) && Len<Rec>(Nil) == 0 && RecsBytes(kind, Nil) == [] && RecsEnc(h, kind, Nil, K) == []
  {
  }

  lemma OneBufferFits(h: Hashes, v: Bytes)
    requires |v| == CHUNK
    ensures SessionOk(OneBuffer(v)) && Len(OneBuffer(v).ckpts) == 0 && Len(OneBuffer(v).layers) == 1
    ensures |PayloadBytes(OneBuffer(v))| < 2 * CHUNK && |PayloadEnc(h, OneBuffer(v), KeepFirst(CHUNK))| < 1000
  {
    hide VecsOk, VecsBytes, FieldsEnc, U64, Vecs, KeepFirst;
    var ss, K := OneBuffer(v), KeepFirst(CHUNK);
    VecsFit(Live, [], 7);
    VecsFit(Kv, v, 5);
    FieldsEncFit(h, Live, [], 7);
    FieldsEncFit(h, Kv, v, 5);
    NoRecs(h, Ckpt, K);
    NoRecs(h, Kv, K);
    assert RecOk(Kv, ss.layers.last);
    assert |RecBytes(Kv, ss.layers.last)| <= 56 + 40 + |v|;
    assert RecsBytes(Kv, ss.layers) == [] + RecBytes(Kv, ss.layers.last);
    assert |RecEnc(h, Kv, 0, ss.layers.last, K)| <= 56 + 160;
    assert RecsEnc(h, Kv, ss.layers, K) == [] + RecEnc(h, Kv, 0, ss.layers.last, K);
  }

  lemma {:induction false} VecsKeep(b0: Reb, v: Bytes, n: nat, k: nat)
    requires b0.Reb? && n <= 5 && Shares(b0, Field(Kv, 0, 0), v, k)
    ensures Len(Vecs(v, n)) == n && FieldsKeep(b0, Kv, 0, Vecs(v, n), KeepFirst(k))
  {
    hide NameOf;
    if n > 0 {
      VecsKeep(b0, v, n - 1, k);
    }
  }

  // The engine's delta of that session against the replica of v, keeping all of v.
  function SecondHeader(h: Hashes, v: Bytes): EHeader {
    HeaderFor(FirstDisk(h, v), OneBuffer(v), PayloadEnc(h, OneBuffer(v), KeepFirst(CHUNK)), 0, 1)
  }

  function SecondStream(h: Hashes, v: Bytes): Bytes {
    EngineStream(h, SecondHeader(h, v), 0, PayloadEnc(h, OneBuffer(v), KeepFirst(CHUNK)))
  }

  lemma FirstName()
    ensures FieldOk(Field(Kv, 0, 0)) && NameOf(Field(Kv, 0, 0)) == K0 && IsKV(K0)
  {
  }

  lemma FirstHave(v: Bytes)
    ensures Have([RItem(K0, |v|, 0)]) == map[K0 := |v|]
  {
    var items := [RItem(K0, |v|, 0)];
    assert items[..0] == [] && Have([]) == map[];
  }

  lemma SecondSaveable(h: Hashes, v: Bytes)
    requires |v| == CHUNK
    ensures Saveable(h, FirstDisk(h, v), OneBuffer(v), KeepFirst(CHUNK), 0, 1)
  {
    hide ChunkHashes, SaveIdString, PayloadBytes, PayloadEnc, SessionOk, NameOf, Have, OneBuffer, Vecs, IsKV, Len, FieldsKeep;
    var d, ss, K := FirstDisk(h, v), OneBuffer(v), KeepFirst(CHUNK);
    OneBufferFits(h, v);
    FirstName();
    FirstHave(v);
    var b0 := BaseReb(d);
    assert Shares(b0, Field(Kv, 0, 0), v, CHUNK);
    VecsKeep(b0, v, 5, CHUNK);
    assert SessionKeeps(b0, ss, K) by { OneBufferKeeps(b0, v, K); }
  }

  lemma OneBufferKeeps(b0: Reb, v: Bytes, K: Keeps)
    requires b0.Reb? && SessionOk(OneBuffer(v)) && Len(Vecs(v, 5)) == 5 && FieldsKeep(b0, Kv, 0, Vecs(v, 5), K)
    ensures SessionKeeps(b0, OneBuffer(v), K)
  {
    hide Vecs, FieldsKeep;
    var ss := OneBuffer(v);
    assert ss.layers.init.Nil? && Len(ss.layers.init) == 0 && ss.layers.last.vecs == Vecs(v, 5);
    assert RecsKeep(b0, Kv, ss.layers.init, K);
    assert RecsKeep(b0, Kv, ss.layers, K);
    assert RecsKeep(b0, Ckpt, ss.ckpts, K);
  }

  lemma {:induction false} FirstSection(v: Bytes, n: nat, off: nat)
    requires n > 0
    ensures Len(Vecs(v, n)) == n
    ensures var secs := VecsSections(Kv, 0, Vecs(v, n), off); secs != [] && secs[0].field == Field(Kv, 0, 0) && secs[0].len == |v|
  {
    hide VecsBytes;
    if n > 1 {
      FirstSection(v, n - 1, off);
    }
  }

  lemma BufferSection(v: Bytes) returns (j: nat)
    ensures var secs := SessionSections(OneBuffer(v), SESS_HEADER); j < |secs| && secs[j].field == Field(Kv, 0, 0) && secs[j].len == |v|
  {
    hide VecsSections, VecsBytes, RecBytes, RecsBytes, GroupBytes, Vecs, U64;
    var ss := OneBuffer(v);
    var a := SESS_HEADER + |ss.geometry|;
    var b := a + |RecBytes(Live, ss.live)|;
    var c := b + |GroupBytes(Ckpt, ss.ckpts)|;
    var x, y := RecSections(Live, 0, ss.live, a), RecsSections(Ckpt, ss.ckpts, b + 8);
    var off := c + 8 + |RecsBytes(Kv, ss.layers.init)| + 56;
    FirstSection(v, 5, off);
    var z := VecsSections(Kv, 0, Vecs(v, 5), off);
    assert Len(ss.layers.init) == 0 && RecsSections(Kv, ss.layers.init, c + 8) == [];
    assert RecsSections(Kv, ss.layers, c + 8) == [] + z;
    j := |x + y|;
    assert SessionSections(ss, SESS_HEADER)[j] == z[0];
  }

  // A section listed is an item of that length, and so a section the new replica offers.
  lemma {:induction false} ListedItem(items: seq<RItem>, j: nat) returns (i: nat)
    requires j < |ItemSecs(items)|
    ensures i < |items| && items[i].section == ItemSecs(items)[j].name != "" && items[i].len == ItemSecs(items)[j].len
    ensures items[i].section in Have(items)
  {
    hide Total;
    var n := |items| - 1;
    if j < |ItemSecs(items[..n])| {
      i := ListedItem(items[..n], j);
    } else {
      i := n;
    }
  }

  // The whole delta is shorter than the buffer, so it keeps it.
  lemma SecondKeeps(h: Hashes, v: Bytes)
    requires |v| == CHUNK
    ensures var r := PutEngine(h, FirstDisk(h, v), SecondStream(h, v), SecondHeader(h, v).fileSize, SaveIdString(1));
      r.Rebuilt? && K0 in r.keeps && r.keeps[K0] == CHUNK
  {
    hide Saveable, Ready, PayloadB, PayloadEnc, PayloadBytes, StartReb, SessionSections, ReadEngineHeader, SessHeaderBytes, U64, Word, Assemble,
         SaveIdString, OneBuffer, KeepFirst, IsKV, EngineHeaderBytes, SameTail, KvExact, KeptB, Have, NameOf, ChunkHashes;
    var d, ss, K, s, hd := FirstDisk(h, v), OneBuffer(v), KeepFirst(CHUNK), SecondStream(h, v), SecondHeader(h, v);
    SecondSaveable(h, v);
    EngineRebuilds(h, d, ss, K, 0, 1, 0, []);
    EngineAccepts(h, d, ss, K, 0, 1, 0);
    OneBufferFits(h, v);
    var b := EngineReb(h, d, s);
    var j := BufferSection(v);
    FirstName();
    FirstHave(v);
    BufferItem(h, d, b, j, CHUNK);
    EngineKept(h, d, s);
    KeptNames(BaseWork(d), b);
    FilesUnchecked(h, d, d, s, hd.fileSize, SaveIdString(1), K0);
    EngineHashesExact(h, d, s, hd.fileSize, SaveIdString(1), K0);
    var r := PutEngine(h, d, s, hd.fileSize, SaveIdString(1));
    assert r.disk.secs[K0] == b.secs[K0];
    WholeChunks(h, ChunksOf(d.state.value.chunks, K0), FileOf(d.secs, K0), r.keeps[K0], r.disk.state.value.chunks[K0], r.disk.secs[K0]);
  }

  lemma WholeChunks(h: Hashes, c0: seq<Word64>, f0: Bytes, keep: nat, c: seq<Word64>, f: Bytes)
    requires KvExact(h, c0, f0, keep, c, f)
    ensures 0 < keep <= CHUNK ==> keep == CHUNK
  {
    hide ChunkHashes;
  }

  lemma KeptNames(w0: Work, b: Reb)
    requires b.Reb? && KeptB(w0, b)
    ensures Have(b.items).Keys == b.keeps.Keys
  {
    hide Have;
  }

  lemma BufferItem(h: Hashes, d: Disk, b: Reb, j: nat, n: nat)
    requires Published(d) && b.Reb? && Ready(h, BaseReb(d), b, Field(Kv, TWO64, 0)) && j < |b.out|
    requires b.out[j].field == Field(Kv, 0, 0) && b.out[j].len == n
    ensures FieldOk(Field(Kv, 0, 0))
    ensures K0 in Have(b.items) && K0 in b.secs && n <= |b.secs[K0]|
  {
    hide Have, Assemble, ChunkHashes;
    FirstName();
    var i := ListedItem(b.items, j);
    assert b.items[i].section == K0;
  }

  // From an empty directory: a put, a refused put whose removal stops after the section's file,
  // an engine delta. It is taken, and the zeros in place of the lost chunk are recorded under the
  // chunk's hash.
  lemma LostChunkRun(h: Hashes, v: Bytes)
    requires |v| == CHUNK && h.sess(v) != h.sess(Zeros(CHUNK))
    ensures Inside(v, FirstPlan(h, v).items)
    ensures var d1, d2 := FirstDisk(h, v), FirstDisk(h, v).(secs := map[]);
      var r := PutEngine(h, d2, SecondStream(h, v), SecondHeader(h, v).fileSize, SaveIdString(1));
      && r.Rebuilt?
      && IsRun(h, [Node(ABSENT, None), Node(d1, None), Node(d2, None), Node(r.disk, None)],
               [PutDelta(Stream(v, FirstPlan(h, v)), FirstWant(h, v), SMOOTH), PutDelta([], None, Stopped(true)),
                PutEngineSave(SecondStream(h, v), SecondHeader(h, v).fileSize, SaveIdString(1), SMOOTH)])
      && K0 in r.disk.state.value.chunks && K0 in r.disk.secs
      && r.disk.state.value.chunks[K0] != ChunkHashes(h, r.disk.secs[K0])
  {
    hide SaveIdString, Stream, PutEngine, SecondStream, SecondHeader, FirstDisk, Moves, IsKV, PutDisk;
    FirstName();
    DebrisPublished(h, v, []);
    SecondKeeps(h, v);
    var d1 := FirstDisk(h, v);
    var d2 := d1.(secs := map[]);
    FirstIs(h, v);
    assert d1.secs - {K0} == map[];
    assert d1.(secs := d1.secs - {K0}) == d2;
    assert ChunkHashes(h, v) == [h.sess(v)] && ChunkHashes(h, Zeros(CHUNK)) == [h.sess(Zeros(CHUNK))];
    assert CHUNK / CHUNK == 1 && [h.sess(v)][..1] == [h.sess(v)];
    var s2, size, id := SecondStream(h, v), SecondHeader(h, v).fileSize, SaveIdString(1);
    LostChunkKept(h, Node(d1, None), s2, size, id, K0);
    var r := PutEngine(h, d2, s2, size, id);
    var e0, e1, e2 := PutDelta(Stream(v, FirstPlan(h, v)), FirstWant(h, v), SMOOTH), PutDelta([], None, Stopped(true)), PutEngineSave(s2, size, id, SMOOTH);
    Chained(h, [Node(ABSENT, None), Node(d1, None), Node(d2, None)], [e0, e1], [Node(d1, None), Node(d2, None), Node(r.disk, None)], [Removing(Stopped(true)), e2]);
  }

  lemma FirstIs(h: Hashes, v: Bytes)
    ensures var d := FirstDisk(h, v); Published(d) && d.secs == map[K0 := v] && d.state.value.chunks == map[K0 := ChunkHashes(h, v)]
  {
  }

  lemma Chained(h: Hashes, ns: seq<Node>, es: seq<Event>, ms: seq<Node>, gs: seq<Event>)
    requires IsRun(h, ns, es) && IsRun(h, ms, gs) && |ns| == |ms| == 3 && ns[2] == ms[1]
    ensures IsRun(h, [ns[0], ns[1], ns[2], ms[2]], [es[0], es[1], gs[1]])
  {
    hide Moves;
  }
}

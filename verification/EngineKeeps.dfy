/**
 What an accepted engine delta leaves of the cached manifest's and the recorded chunk hashes'
 agreement with the files: hashing only what it wrote gives the files' manifest, and exactly when
 the chunk hashes it records are the files' own.
 */
module EngineKeeps {
  import opened Bytes
  import opened Options
  import opened Hashing
  import opened SessFile
  import opened SectionNames
  import opened Delta
  import opened Replica
  import opened Replication
  import opened ManifestCache
  import opened EngineDelta

  // ---- The invariant of the rebuild's files ----

  function RebWork(b: Reb): Work
    requires b.Reb?
  {
    Work(b.items, b.secs, b.have, b.keeps)
  }

  ghost predicate KeptB(w0: Work, b: Reb) {
    b.Reb? ==> Patched(w0, RebWork(b))
  }

  lemma FrameHave(items: seq<RItem>, at: nat, n: nat)
    ensures Have(FrameItems(items, at, n)) == Have(items)
  {
    hide Have;
    if items != [] && items[|items| - 1].section == "" {
      var init, last := items[..|items| - 1], items[|items| - 1];
      assert items == init + [last];
      HavePush(init, last);
      HavePush(init, last.(len := last.len + n));
    } else {
      HavePush(items, RItem("", n, at));
    }
  }

  lemma FrameKept(w0: Work, b: Reb, x: Bytes, p: nat)
    requires b.Reb? && KeptB(w0, b)
    ensures var fr := Frame(b, x); KeptB(w0, fr.(p := p))
  {
    hide Have, Patched;
    var fr := Frame(b, x);
    FrameHave(b.items, |b.frames|, |x|);
    PatchedFraming(w0, RebWork(b), fr.items);
  }

  lemma SectionKept(s: Bytes, w0: Work, b: Reb, fd: Field, keep: nat, size: nat)
    requires InS(s, b) && FieldOk(fd) && KeptB(w0, b)
    ensures KeptB(w0, SectionB(s, b, fd, keep, size))
  {
    hide Patched, Truncate, NameOf, Have;
    if SectionB(s, b, fd, keep, size).Reb? {
      NameOfValid(fd);
      PatchedSection(w0, RebWork(b), NameOf(fd), keep, s[b.p..b.p + size - keep]);
    }
  }

  lemma SkipKept(s: Bytes, w0: Work, b: Reb, n: nat)
    requires InS(s, b) && KeptB(w0, b)
    ensures KeptB(w0, SkipB(s, b, n))
  {
    hide Patched, FrameItems;
    if SkipB(s, b, n).Reb? {
      FrameKept(w0, b, s[b.p..b.p + n], b.p + n);
    }
  }

  lemma CountKept(s: Bytes, w0: Work, b: Reb)
    requires InS(s, b) && KeptB(w0, b)
    ensures KeptB(w0, CountB(s, b).0)
  {
    hide Patched, FrameItems;
    if CountB(s, b).0.Reb? {
      FrameKept(w0, b, U64(Word(s[b.p..b.p + 8])), b.p + 8);
    }
  }

  lemma HashesKept(h: Hashes, s: Bytes, w0: Work, b: Reb, name: Name, keep: nat, size: nat, base: seq<Word64>)
    requires InS(s, b) && KeptB(w0, b)
    ensures KeptB(w0, HashesB(h, s, b, name, keep, size, base))
  {
    hide Patched, Words, ChunkHashes, Word;
  }

  lemma FieldKept(h: Hashes, s: Bytes, w0: Work, b: Reb, fd: Field, limit: nat)
    requires InS(s, b) && FieldOk(fd) && KeptB(w0, b)
    ensures KeptB(w0, FieldB(h, s, b, fd, limit))
  {
    hide Patched, CountB, SectionB, HashesB, Elem, NameOf, FrameItems;
    if fd.kind.Kv? {
      var r := KvB(h, s, b, fd, limit);
      if r.Reb? {
        var size, keep := Word(s[b.p..b.p + 8]), Word(s[b.p + 8..b.p + 16]);
        FrameKept(w0, b, U64(size), b.p + 16);
        var fr := Frame(b, U64(size));
        var m := fr.(p := b.p + 16);
        SectionKept(s, w0, m, fd, keep, size);
        HashesKept(h, s, w0, SectionB(s, m, fd, keep, size), NameOf(fd), keep, size, ChunksOf(b.chunks, NameOf(fd)));
      }
    } else {
      CountKept(s, w0, b);
      var (b1, n) := CountB(s, b);
      SectionKept(s, w0, b1, fd, 0, n * Elem(fd.kind, fd.j));
    }
  }

  lemma {:induction false} FieldsKept(h: Hashes, s: Bytes, w0: Work, b: Reb, kind: Kind, i: nat, k: nat, limit: nat)
    requires InS(s, b) && RecIndexOk(kind, i) && k <= PartCount(kind) && KeptB(w0, b)
    ensures KeptB(w0, FieldsB(h, s, b, kind, i, k, limit))
  {
    hide KeptB, FieldB;
    if k > 0 {
      FieldsKept(h, s, w0, b, kind, i, k - 1, limit);
      FieldKept(h, s, w0, FieldsB(h, s, b, kind, i, k - 1, limit), Field(kind, i, k - 1), limit);
    }
  }

  lemma RecKeptB(h: Hashes, s: Bytes, w0: Work, b: Reb, kind: Kind, i: nat, limit: nat)
    requires InS(s, b) && RecIndexOk(kind, i) && KeptB(w0, b)
    ensures KeptB(w0, RecB(h, s, b, kind, i, limit))
  {
    hide KeptB, FieldsB, SkipB;
    SkipKept(s, w0, b, PreLen(kind));
    var b1 := if kind.Kv? then SkipB(s, b, PreLen(kind)) else b;
    FieldsKept(h, s, w0, b1, kind, i, PartCount(kind), limit);
    SkipKept(s, w0, FieldsB(h, s, b1, kind, i, PartCount(kind), limit), PostLen(kind));
  }

  lemma {:induction false} RecsKeptB(h: Hashes, s: Bytes, w0: Work, b: Reb, kind: Kind, n: nat, limit: nat)
    requires InS(s, b) && n <= TWO64 && !kind.Live? && KeptB(w0, b)
    ensures KeptB(w0, RecsB(h, s, b, kind, n, limit))
  {
    hide KeptB, RecB;
    if n > 0 {
      RecsKeptB(h, s, w0, b, kind, n - 1, limit);
      RecKeptB(h, s, w0, RecsB(h, s, b, kind, n - 1, limit), kind, n - 1, limit);
    }
  }

  lemma GroupKept(h: Hashes, s: Bytes, w0: Work, b: Reb, kind: Kind, most: nat, limit: nat)
    requires InS(s, b) && !kind.Live? && most <= TWO64 && KeptB(w0, b)
    ensures KeptB(w0, GroupB(h, s, b, kind, most, limit))
  {
    hide Patched, RecsB, CountB;
    CountKept(s, w0, b);
    var (b1, n) := CountB(s, b);
    if n <= most {
      RecsKeptB(h, s, w0, b1, kind, n, limit);
    }
  }

  lemma PayloadKept(h: Hashes, s: Bytes, w0: Work, b: Reb, limit: nat)
    requires InS(s, b) && KeptB(w0, b)
    ensures KeptB(w0, PayloadB(h, s, b, limit))
  {
    hide KeptB, RecB, GroupB, SkipB;
    SkipKept(s, w0, b, GEOMETRY);
    var b1 := SkipB(s, b, GEOMETRY);
    RecKeptB(h, s, w0, b1, Live, 0, limit);
    var b2 := RecB(h, s, b1, Live, 0, limit);
    GroupKept(h, s, w0, b2, Ckpt, MAX_CKPTS, limit);
    GroupKept(h, s, w0, GroupB(h, s, b2, Ckpt, MAX_CKPTS, limit), Kv, MAX_LAYERS, limit);
  }

  // The base's files as the rebuild starts from them.
  function BaseWork(d: Disk): Work
    requires Published(d)
  {
    Work([], d.secs, Have(d.state.value.items), map[])
  }

  lemma StartKept(h: Hashes, d: Disk, hd: EHeader)
    requires Published(d)
    ensures var b := StartReb(h, d, hd); KeptB(BaseWork(d), b) && b.p == ENGINE_HEADER && b.chunks == d.state.value.chunks
  {
    hide SessHeaderBytes, Patched, Have, FrameItems;
    StartPatched(BaseWork(d));
    FrameKept(BaseWork(d), Reb(ENGINE_HEADER, [], [], Have(d.state.value.items), d.state.value.chunks, map[], 0, d.secs, []),
              SessHeaderBytes(h, hd.model, hd.config, 0), ENGINE_HEADER);
  }

  lemma EngineKept(h: Hashes, d: Disk, s: Bytes)
    requires Published(d) && ReadEngineHeader(h, s).Some?
    ensures KeptB(BaseWork(d), EngineReb(h, d, s))
  {
    hide KeptB, PayloadB, StartReb;
    var hd := ReadEngineHeader(h, s).value;
    StartKept(h, d, hd);
    PayloadKept(h, s, BaseWork(d), StartReb(h, d, hd), hd.fileSize);
  }

  // A section the old replica had and the new one has not is gone.
  lemma OldSectionsGone(h: Hashes, d: Disk, s: Bytes, wantSize: int, wantId: string, name: Name)
    requires PutEngine(h, d, s, wantSize, wantId).Rebuilt? && name in Have(d.state.value.items)
    ensures var d' := PutEngine(h, d, s, wantSize, wantId).disk;
      name !in Have(d'.state.value.items) ==> name !in d'.secs
  {
    hide EngineReb, Have, PatchedFiles, PatchedItems, TrailerOk, SessHeaderBytes, SaveIdString;
    EngineKept(h, d, s);
  }

  // After any accepted engine delta, hashing only what it wrote gives the manifest of the files,
  // if the cached manifest was.
  lemma EngineManifestCoherent(h: Hashes, d: Disk, man: Option<Manifest>, s: Bytes, wantSize: int, wantId: string)
    requires man.None? || man == ManifestOf(h, d)
    requires PutEngine(h, d, s, wantSize, wantId).Rebuilt?
    ensures var r := PutEngine(h, d, s, wantSize, wantId);
      var prev := if man.Some? then BlocksByName(man.value.sections) else map[];
      FinishSections(h, r.disk.state.value.items, r.disk.secs, r.keeps, prev) == ManSections(h, r.disk.state.value.items, r.disk.secs)
  {
    hide EngineReb, FinishSections, ManSections, HashedFrom, ReuseOk, Have, BlocksByName, KeptPrefix, StartReb, TrailerOk, SessHeaderBytes, SaveIdString;
    var hd, b := ReadEngineHeader(h, s).value, EngineReb(h, d, s);
    var d' := EngineDisk(h, hd, b);
    var prev := if man.Some? then BlocksByName(man.value.sections) else map[];
    EngineKept(h, d, s);
    forall i | 0 <= i < |b.items| && b.items[i].section != "" && b.items[i].section in d'.secs
      ensures ReuseOk(h, d'.secs[b.items[i].section], HaveLen(b.keeps, b.items[i].section), b.items[i].len, PrevOf(prev, b.items[i].section))
    {
      var name := b.items[i].section;
      assert d'.secs[name] == b.secs[name];
      if name in prev {
        ManBlocks(h, d.state.value.items, d.secs, name);
        KeptBlocks(h, b.secs[name], d.secs[name], b.keeps[name], b.items[i].len, prev[name], Have(d.state.value.items)[name]);
      } else {
        NothingReused(h, b.secs[name], b.keeps[name], b.items[i].len);
      }
    }
    FinishRefines(h, b.items, d'.secs, b.keeps, prev);
  }

  // ---- Recorded chunk hashes ----

  // What is recorded for a K/V section a delta wrote is its file's exactly if the base's recorded
  // hashes of the kept chunks are those of what the base's file holds there.
  predicate KvExact(h: Hashes, chunks0: seq<Word64>, file0: Bytes, keep: nat, chunks: seq<Word64>, file: Bytes) {
    && keep % CHUNK == 0 && keep / CHUNK <= |chunks0|
    && (chunks == ChunkHashes(h, file) <==> chunks0[..keep / CHUNK] == ChunkHashes(h, Truncate(file0, keep)))
  }

  // One section along the rebuild: as the base left it, or written once and exact.
  ghost predicate ExactB(h: Hashes, b0: Reb, name: Name, b: Reb)
    requires b0.Reb?
  {
    b.Reb? ==> (
      if name in b.keeps then
        && name !in b.have && b.keeps[name] <= HaveLen(b0.have, name) && name in b.secs
        && (if IsKV(name) then name in b.chunks && KvExact(h, ChunksOf(b0.chunks, name), FileOf(b0.secs, name), b.keeps[name], b.chunks[name], b.secs[name])
            else (name in b.chunks <==> name in b0.chunks))
      else
        && HaveLen(b.have, name) == HaveLen(b0.have, name) && FileOf(b.secs, name) == FileOf(b0.secs, name)
        && (name in b.secs <==> name in b0.secs) && (name in b.chunks <==> name in b0.chunks)
        && ChunksOf(b.chunks, name) == ChunksOf(b0.chunks, name))
  }

  // An accepted K/V buffer's recorded hashes are its file's exactly when the base's recorded
  // hashes of the kept chunks are those of what the base file holds there.
  lemma KvHashesExact(h: Hashes, s: Bytes, b: Reb, fd: Field, limit: nat)
    requires InS(s, b) && FieldOk(fd) && b.Reb? && KvB(h, s, b, fd, limit).Reb?
    ensures b.p + 16 <= |s|
    ensures var r := KvB(h, s, b, fd, limit);
      var name, keep := NameOf(fd), Word(s[b.p + 8..b.p + 16]);
      && name in r.chunks && name in r.secs && keep / CHUNK <= |ChunksOf(b.chunks, name)|
      && (r.chunks[name] == ChunkHashes(h, r.secs[name]) <==>
            ChunksOf(b.chunks, name)[..keep / CHUNK] == ChunkHashes(h, Truncate(FileOf(b.secs, name), keep)))
  {
    hide ChunkHashes, NameOf, Words, FieldOk, FrameItems;
    var r := KvB(h, s, b, fd, limit);
    var name, size, keep := NameOf(fd), Word(s[b.p..b.p + 8]), Word(s[b.p + 8..b.p + 16]);
    var base, kept := ChunksOf(b.chunks, name), keep / CHUNK;
    var file, cut := r.secs[name], Truncate(FileOf(b.secs, name), keep);
    assert file[..keep] == cut;
    assert kept * CHUNK == keep;
    ChunkSplit(h, file, kept);
    assert r.chunks[name][..kept] == base[..kept] && r.chunks[name][kept..] == ChunkHashes(h, file[keep..]);
    SplitHashes(r.chunks[name], base[..kept], ChunkHashes(h, cut), ChunkHashes(h, file[keep..]));
  }

  lemma SplitHashes(hashes: seq<Word64>, base: seq<Word64>, head: seq<Word64>, tail: seq<Word64>)
    requires |base| == |head| <= |hashes| && hashes[..|base|] == base && hashes[|base|..] == tail
    ensures hashes == head + tail <==> base == head
  {
    assert hashes == base + tail;
    if hashes == head + tail {
      assert base == hashes[..|head|] == head;
    }
  }

  lemma BaseChunks(h: Hashes, file: Bytes, base: seq<Word64>, keep: nat, held: bool)
    requires keep % CHUNK == 0 && keep <= |file| && keep / CHUNK <= |base|
    requires held ==> base == ChunkHashes(h, file)
    requires keep > 0 ==> held
    ensures ChunkHashes(h, Truncate(file, keep)) == base[..keep / CHUNK]
  {
    hide ChunkHashes;
    var k := keep / CHUNK;
    assert k * CHUNK == keep;
    if keep > 0 {
      ChunkSplit(h, file, k);
      assert |ChunkHashes(h, file[..keep])| == k;
    }
  }

  // A buffer of another section changes nothing here; the section's own makes it exact. Met again
  // it keeps nothing.
  lemma KvStep(h: Hashes, s: Bytes, b0: Reb, name: Name, b: Reb, fd: Field, limit: nat)
    requires InS(s, b) && FieldOk(fd) && fd.kind.Kv? && b0.Reb? && ExactB(h, b0, name, b)
    ensures ExactB(h, b0, name, KvB(h, s, b, fd, limit))
  {
    hide ChunkHashes, NameOf, Words, FieldOk, FrameItems, Word, Truncate, IsKV;
    var r := KvB(h, s, b, fd, limit);
    if r.Reb? && NameOf(fd) == name {
      var keep := Word(s[b.p + 8..b.p + 16]);
      KvHashesExact(h, s, b, fd, limit);
      NameOfValid(fd);
      if name in b.keeps {
        assert keep == 0;
        NothingKept(h, ChunksOf(b.chunks, name), FileOf(b.secs, name));
        NothingKept(h, ChunksOf(b0.chunks, name), FileOf(b0.secs, name));
      }
    }
  }

  lemma NothingKept(h: Hashes, chunks: seq<Word64>, file: Bytes)
    ensures chunks[..0] == ChunkHashes(h, Truncate(file, 0))
  {
  }

  lemma WholeStep(h: Hashes, s: Bytes, b0: Reb, name: Name, b: Reb, fd: Field, limit: nat)
    requires InS(s, b) && FieldOk(fd) && !fd.kind.Kv? && b0.Reb? && ExactB(h, b0, name, b)
    ensures ExactB(h, b0, name, WholeB(s, b, fd, limit))
  {
    hide KvExact, NameOf, Elem, Word, FrameItems, IsKV;
    NameOfValid(fd);
  }

  lemma FieldStep(h: Hashes, s: Bytes, b0: Reb, name: Name, b: Reb, fd: Field, limit: nat)
    requires InS(s, b) && FieldOk(fd) && b0.Reb? && ExactB(h, b0, name, b)
    ensures ExactB(h, b0, name, FieldB(h, s, b, fd, limit))
  {
    hide ExactB, KvB, WholeB;
    if fd.kind.Kv? {
      KvStep(h, s, b0, name, b, fd, limit);
    } else {
      WholeStep(h, s, b0, name, b, fd, limit);
    }
  }

  lemma {:induction false} FieldsExact(h: Hashes, s: Bytes, b0: Reb, name: Name, b: Reb, kind: Kind, i: nat, k: nat, limit: nat)
    requires InS(s, b) && RecIndexOk(kind, i) && k <= PartCount(kind) && b0.Reb? && ExactB(h, b0, name, b)
    ensures ExactB(h, b0, name, FieldsB(h, s, b, kind, i, k, limit))
  {
    hide ExactB, FieldB;
    if k > 0 {
      FieldsExact(h, s, b0, name, b, kind, i, k - 1, limit);
      FieldStep(h, s, b0, name, FieldsB(h, s, b, kind, i, k - 1, limit), Field(kind, i, k - 1), limit);
    }
  }

  lemma SkipExact(h: Hashes, s: Bytes, b0: Reb, name: Name, b: Reb, n: nat)
    requires InS(s, b) && b0.Reb? && ExactB(h, b0, name, b)
    ensures ExactB(h, b0, name, SkipB(s, b, n)) && ExactB(h, b0, name, CountB(s, b).0)
  {
    hide KvExact, FrameItems, IsKV;
  }

  lemma RecExact(h: Hashes, s: Bytes, b0: Reb, name: Name, b: Reb, kind: Kind, i: nat, limit: nat)
    requires InS(s, b) && RecIndexOk(kind, i) && b0.Reb? && ExactB(h, b0, name, b)
    ensures ExactB(h, b0, name, RecB(h, s, b, kind, i, limit))
  {
    hide ExactB, FieldsB, SkipB;
    SkipExact(h, s, b0, name, b, PreLen(kind));
    var b1 := if kind.Kv? then SkipB(s, b, PreLen(kind)) else b;
    FieldsExact(h, s, b0, name, b1, kind, i, PartCount(kind), limit);
    SkipExact(h, s, b0, name, FieldsB(h, s, b1, kind, i, PartCount(kind), limit), PostLen(kind));
  }

  lemma {:induction false} RecsExact(h: Hashes, s: Bytes, b0: Reb, name: Name, b: Reb, kind: Kind, n: nat, limit: nat)
    requires InS(s, b) && n <= TWO64 && !kind.Live? && b0.Reb? && ExactB(h, b0, name, b)
    ensures ExactB(h, b0, name, RecsB(h, s, b, kind, n, limit))
  {
    hide ExactB, RecB;
    if n > 0 {
      RecsExact(h, s, b0, name, b, kind, n - 1, limit);
      RecExact(h, s, b0, name, RecsB(h, s, b, kind, n - 1, limit), kind, n - 1, limit);
    }
  }

  lemma GroupExact(h: Hashes, s: Bytes, b0: Reb, name: Name, b: Reb, kind: Kind, most: nat, limit: nat)
    requires InS(s, b) && !kind.Live? && most <= TWO64 && b0.Reb? && ExactB(h, b0, name, b)
    ensures ExactB(h, b0, name, GroupB(h, s, b, kind, most, limit))
  {
    hide ExactB, RecsB, CountB;
    BrokenExact(h, b0, name);
    SkipExact(h, s, b0, name, b, 0);
    var (b1, n) := CountB(s, b);
    if n <= most {
      RecsExact(h, s, b0, name, b1, kind, n, limit);
    }
  }

  lemma BrokenExact(h: Hashes, b0: Reb, name: Name)
    requires b0.Reb?
    ensures ExactB(h, b0, name, Broken)
  {
  }

  lemma PayloadExact(h: Hashes, s: Bytes, b0: Reb, name: Name, b: Reb, limit: nat)
    requires InS(s, b) && b0.Reb? && ExactB(h, b0, name, b)
    ensures ExactB(h, b0, name, PayloadB(h, s, b, limit))
  {
    hide ExactB, RecB, GroupB, SkipB;
    SkipExact(h, s, b0, name, b, GEOMETRY);
    var b1 := SkipB(s, b, GEOMETRY);
    RecExact(h, s, b0, name, b1, Live, 0, limit);
    var b2 := RecB(h, s, b1, Live, 0, limit);
    GroupExact(h, s, b0, name, b2, Ckpt, MAX_CKPTS, limit);
    GroupExact(h, s, b0, name, GroupB(h, s, b2, Ckpt, MAX_CKPTS, limit), Kv, MAX_LAYERS, limit);
  }

  // The whole put: what an accepted engine delta records for a K/V section it wrote is its file's
  // exactly if the base's recorded hashes of the kept chunks are those of the base's file, cut or
  // extended with zeros to what was kept. Of a section it did not write nothing changes.
  lemma EngineHashesExact(h: Hashes, d: Disk, s: Bytes, wantSize: int, wantId: string, name: Name)
    requires PutEngine(h, d, s, wantSize, wantId).Rebuilt?
    ensures var r, chunks0 := PutEngine(h, d, s, wantSize, wantId), d.state.value.chunks;
      var chunks := r.disk.state.value.chunks;
      if name in r.keeps then
        && name in r.disk.secs && r.keeps[name] <= HaveLen(Have(d.state.value.items), name)
        && (if IsKV(name) then name in chunks && KvExact(h, ChunksOf(chunks0, name), FileOf(d.secs, name), r.keeps[name], chunks[name], r.disk.secs[name])
            else (name in chunks <==> name in chunks0))
      else
        && (name in chunks <==> name in chunks0) && ChunksOf(chunks, name) == ChunksOf(chunks0, name)
        && (name in r.disk.secs ==> name in d.secs && r.disk.secs[name] == d.secs[name])
  {
    hide PayloadB, Have, TrailerOk, SessHeaderBytes, SaveIdString, IsKV, KvExact, FrameItems;
    var hd := ReadEngineHeader(h, s).value;
    var b0 := StartReb(h, d, hd);
    PayloadExact(h, s, b0, name, b0, hd.fileSize);
  }
}

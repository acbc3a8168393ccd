/**
 The cached manifest (internal/kvshare/store.go, hashSection and finish): hashing only what a put
 wrote gives the manifest of the files as they are, and the recorded chunk hashes are the files'.
 */
module ManifestCache {
  import opened Bytes
  import opened Options
  import opened Hashing
  import opened SectionNames
  import opened Delta
  import opened DeltaStream
  import opened Replica
  import opened Replication

  // A patched section still starts with what was kept of the old one.
  predicate KeptPrefix(file: Bytes, was: Bytes, keep: nat) {
    keep <= |file| && file[..keep] == Truncate(was, keep)
  }

  // The files of a replica being written: the items so far, the section files, what the base still
  // offers of them and how much of each was kept.
  datatype Work = Work(items: seq<RItem>, secs: map<Name, Bytes>, have: map<Name, nat>, keeps: map<Name, nat>)

  function WorkOf(a: Acc): Work {
    Work(a.items, a.secs, a.have, a.keeps)
  }

  // What every step of a put preserves about the files it writes, whatever the stream says:
  // each section named so far has the length its last item gave it and starts with what that
  // item kept; the others are as they were.
  ghost predicate Patched(w0: Work, w: Work) {
    PatchedNames(w0, w) && PatchedFiles(w0, w) && PatchedItems(w)
  }

  ghost predicate PatchedNames(w0: Work, w: Work) {
    && w.have == w0.have - w.keeps.Keys
    && Have(w.items).Keys == w.keeps.Keys
    && w.keeps.Keys <= w.secs.Keys
    && (forall n :: n !in w.keeps ==> (n in w.secs <==> n in w0.secs) && FileOf(w.secs, n) == FileOf(w0.secs, n))
  }

  ghost predicate PatchedFiles(w0: Work, w: Work) {
    forall n :: n in w.keeps ==>
      && n in w.secs && HaveLen(Have(w.items), n) == |w.secs[n]|
      && KeptPrefix(w.secs[n], FileOf(w0.secs, n), w.keeps[n])
  }

  ghost predicate PatchedItems(w: Work) {
    forall i :: 0 <= i < |w.items| && w.items[i].section != "" ==>
      w.items[i].section in w.keeps && w.keeps[w.items[i].section] <= w.items[i].len
  }

  // Framing adds no section.
  lemma PatchedFraming(w0: Work, w: Work, items: seq<RItem>)
    requires Patched(w0, w) && Have(items) == Have(w.items)
    requires forall i :: 0 <= i < |items| && items[i].section != "" ==> i < |w.items| && items[i] == w.items[i]
    ensures Patched(w0, w.(items := items))
  {
    hide Have, KeptPrefix;
  }

  function PatchWork(w: Work, name: Name, keep: nat, data: Bytes): Work {
    Work(w.items + [RItem(name, keep + |data|, 0)], w.secs[name := Truncate(FileOf(w.secs, name), keep) + data],
         w.have - {name}, w.keeps[name := keep])
  }

  lemma PatchedSection(w0: Work, w: Work, name: Name, keep: nat, data: Bytes)
    requires Patched(w0, w) && name != "" && keep <= HaveLen(w.have, name)
    ensures Patched(w0, PatchWork(w, name, keep, data))
  {
    hide PatchedFiles, PatchedItems, PatchWork, Have;
    PatchedNamesStep(w0, w, name, keep, data);
    PatchedFilesStep(w0, w, name, keep, data);
    PatchedItemsStep(w, name, keep, data);
  }

  lemma PatchedNamesStep(w0: Work, w: Work, name: Name, keep: nat, data: Bytes)
    requires PatchedNames(w0, w) && name != ""
    ensures PatchedNames(w0, PatchWork(w, name, keep, data))
  {
    hide Truncate, Have;
    var r := PatchWork(w, name, keep, data);
    HavePush(w.items, RItem(name, keep + |data|, 0));
    assert r.have == w0.have - r.keeps.Keys;
  }

  lemma PatchedFilesStep(w0: Work, w: Work, name: Name, keep: nat, data: Bytes)
    requires PatchedNames(w0, w) && PatchedFiles(w0, w) && name != "" && keep <= HaveLen(w.have, name)
    ensures PatchedFiles(w0, PatchWork(w, name, keep, data))
  {
    hide Truncate, Have, KeptPrefix;
    var r := PatchWork(w, name, keep, data);
    HavePush(w.items, RItem(name, keep + |data|, 0));
    KeptPatch(FileOf(w0.secs, name), FileOf(w.secs, name), keep, data, name in w.keeps);
    forall n | n in r.keeps
      ensures n in r.secs && HaveLen(Have(r.items), n) == |r.secs[n]| && KeptPrefix(r.secs[n], FileOf(w0.secs, n), r.keeps[n])
    {
      if n != name {
        assert n in w.keeps && r.secs[n] == w.secs[n];
      }
    }
  }

  lemma PatchedItemsStep(w: Work, name: Name, keep: nat, data: Bytes)
    requires PatchedItems(w) && name != "" && (name in w.keeps ==> keep == 0)
    ensures PatchedItems(PatchWork(w, name, keep, data))
  {
    var r := PatchWork(w, name, keep, data);
    forall i | 0 <= i < |r.items| && r.items[i].section != ""
      ensures r.items[i].section in r.keeps && r.keeps[r.items[i].section] <= r.items[i].len
    {
      if i < |w.items| {
        assert r.items[i] == w.items[i];
      }
    }
  }

  // A section met again keeps nothing: its first item took what there was to keep.
  lemma KeptPatch(was: Bytes, now: Bytes, keep: nat, data: Bytes, again: bool)
    requires if again then keep == 0 else now == was
    ensures KeptPrefix(Truncate(now, keep) + data, was, keep) && |Truncate(now, keep) + data| == keep + |data|
  {
    var cut := Truncate(now, keep);
    assert (cut + data)[..keep] == cut;
  }

  lemma PatchedStep(s: Bytes, hd: Header, w0: Work, a: Acc)
    requires a.cur.pos <= |s| && Patched(w0, WorkOf(a)) && PutStep(s, hd, a).Go?
    ensures Patched(w0, WorkOf(PutStep(s, hd, a).acc))
  {
    hide Patched, NextItem, ValidKey, Available, Have, Truncate;
    var (e, c) := NextItem(s, hd, a.cur);
    var it := e.item;
    var data := Available(s, c.pos, it.len - it.keep);
    if it.section == "" {
      HavePush(a.items, RItem("", it.len, |a.frames|));
      PatchedFraming(w0, WorkOf(a), a.items + [RItem("", it.len, |a.frames|)]);
    } else {
      PatchedSection(w0, WorkOf(a), it.section, it.keep, data);
    }
  }

  lemma {:induction false} PatchedRun(s: Bytes, hd: Header, w0: Work, a: Acc)
    requires a.cur.pos <= |s| && Patched(w0, WorkOf(a)) && PutRun(s, hd, a).Some?
    ensures Patched(w0, WorkOf(PutRun(s, hd, a).value))
    decreases a.cur.left
  {
    hide Patched, PutStep;
    var r := PutStep(s, hd, a);
    if r.Go? {
      PatchedStep(s, hd, w0, a);
      PatchedRun(s, hd, w0, r.acc);
    }
  }

  lemma StartPatched(w: Work)
    requires w.items == [] && w.keeps == map[]
    ensures Patched(w, w)
  {
  }

  lemma PutPatched(d: Disk, s: Bytes, want: Option<FileMeta>)
    requires PutAcc(d, s, want).Some?
    ensures Patched(WorkOf(StartAcc(d, PutHeader(s, want).value)), WorkOf(PutAcc(d, s, want).value))
  {
    hide Patched, PutRun, Have, Base;
    var hd := PutHeader(s, want).value;
    var a0 := StartAcc(d, hd);
    StartPatched(WorkOf(a0));
    PatchedRun(s, hd, WorkOf(a0), a0);
  }

  // ---- Incremental hashing refines full hashing ----

  // The previous blocks that would be reused are the file's own.
  predicate ReuseOk(h: Hashes, file: Bytes, keep: nat, n: nat, prev: seq<Bytes>) {
    var reuse := if keep / BLOCK <= |prev| then keep / BLOCK else |prev|;
    && reuse * BLOCK <= n && reuse * BLOCK <= |file|
    && forall b :: 0 <= b < reuse ==> prev[b] == h.block(BlockAt(file, 0, b))
  }

  lemma ReuseHashesSame(h: Hashes, file: Bytes, keep: nat, n: nat, prev: seq<Bytes>)
    requires ReuseOk(h, file, keep, n, prev)
    ensures ReuseHashes(h, file, keep, n, prev) == BlockHashes(h, file, 0, n)
  {
    var reuse := if keep / BLOCK <= |prev| then keep / BLOCK else |prev|;
    ReuseBlocks(h, file, n, reuse, prev);
  }

  function PrevOf(prev: map<Name, seq<Bytes>>, name: Name): seq<Bytes> {
    if name in prev then prev[name] else []
  }

  predicate ReusesOk(h: Hashes, items: seq<RItem>, secs: map<Name, Bytes>, keeps: map<Name, nat>, prev: map<Name, seq<Bytes>>) {
    forall i :: 0 <= i < |items| && items[i].section != "" && items[i].section in secs ==>
      ReuseOk(h, secs[items[i].section], HaveLen(keeps, items[i].section), items[i].len, PrevOf(prev, items[i].section))
  }

  lemma {:induction false} FinishRefines(h: Hashes, items: seq<RItem>, secs: map<Name, Bytes>, keeps: map<Name, nat>, prev: map<Name, seq<Bytes>>)
    requires ReusesOk(h, items, secs, keeps, prev)
    ensures FinishSections(h, items, secs, keeps, prev) == ManSections(h, items, secs)
  {
    hide ReuseOk, ReuseHashes, ValidKey, BlockHashes;
    if items != [] {
      var n := |items| - 1;
      var it := items[n];
      assert forall i :: 0 <= i < n ==> items[..n][i] == items[i];
      FinishRefines(h, items[..n], secs, keeps, prev);
      if it.section != "" && it.section in secs {
        ReuseHashesSame(h, secs[it.section], HaveLen(keeps, it.section), it.len, PrevOf(prev, it.section));
      }
    }
  }

  lemma KeptBlocks(h: Hashes, file: Bytes, was: Bytes, keep: nat, n: nat, prev: seq<Bytes>, len: nat)
    requires KeptPrefix(file, was, keep) && keep <= n && HashedFrom(h, prev, len, was)
    ensures ReuseOk(h, file, keep, n, prev)
  {
    var reuse := if keep / BLOCK <= |prev| then keep / BLOCK else |prev|;
    forall b | 0 <= b < reuse ensures prev[b] == h.block(BlockAt(file, 0, b)) {
      var lo, hi := b * BLOCK, (b + 1) * BLOCK;
      assert hi <= keep && hi <= |was|;
      assert BlockAt(file, 0, b) == file[..keep][lo..hi] == Truncate(was, keep)[lo..hi] == was[lo..hi] == BlockAt(was, 0, b);
    }
  }

  // The blocks a put may reuse: those of the cached manifest when the old replica is its base.
  function PrevBlocks(d: Disk, hd: Header, man: Option<Manifest>): map<Name, seq<Bytes>> {
    if man.Some? && (d.state.None? || Base(d, hd.model, hd.config).Some?) then BlocksByName(man.value.sections) else map[]
  }

  // After any accepted put, the manifest built by hashing only what it wrote is the manifest of
  // the files, if the cached one was.
  lemma PutManifestCoherent(h: Hashes, d: Disk, man: Option<Manifest>, s: Bytes, want: Option<FileMeta>)
    requires man.None? || man == ManifestOf(h, d)
    requires PutAcc(d, s, want).Some?
    ensures var a := PutAcc(d, s, want).value;
      var d' := PutDisk(d, s, want).value;
      FinishSections(h, a.items, d'.secs, a.keeps, PrevBlocks(d, PutHeader(s, want).value, man))
        == ManSections(h, a.items, d'.secs)
  {
    hide PutAcc, FinishSections, ManSections, HashedFrom, ReuseOk, Have, BlocksByName, KeptPrefix;
    var hd := PutHeader(s, want).value;
    var a, d', prev := PutAcc(d, s, want).value, PutDisk(d, s, want).value, PrevBlocks(d, hd, man);
    PutPatched(d, s, want);
    forall i | 0 <= i < |a.items| && a.items[i].section != "" && a.items[i].section in d'.secs
      ensures ReuseOk(h, d'.secs[a.items[i].section], HaveLen(a.keeps, a.items[i].section), a.items[i].len, PrevOf(prev, a.items[i].section))
    {
      var name := a.items[i].section;
      assert d'.secs[name] == a.secs[name];
      if name in prev {
        ManBlocks(h, d.state.value.items, d.secs, name);
        KeptBlocks(h, a.secs[name], d.secs[name], a.keeps[name], a.items[i].len, prev[name], Have(d.state.value.items)[name]);
      } else {
        NothingReused(h, a.secs[name], a.keeps[name], a.items[i].len);
      }
    }
    FinishRefines(h, a.items, d'.secs, a.keeps, prev);
  }

  lemma NothingReused(h: Hashes, file: Bytes, keep: nat, n: nat)
    ensures ReuseOk(h, file, keep, n, [])
  {
  }

  // ---- Chunk hashes ----

  // The chunk hashes finish records after a put; a file shorter than its item is filled from the
  // hashing buffer.
  function FinishChunks(h: Hashes, items: seq<RItem>, secs: map<Name, Bytes>, stale: Bytes): map<Name, seq<Word64>> {
    if items == [] then map[] else
      var init, it := FinishChunks(h, items[..|items| - 1], secs, stale), items[|items| - 1];
      if IsKV(it.section) && it.section in secs
      then init[it.section := ChunkHashes(h, Fill(secs[it.section], it.len, stale))] else init
  }

  lemma {:induction false} FinishChunksAt(h: Hashes, items: seq<RItem>, secs: map<Name, Bytes>, stale: Bytes, name: Name)
    requires name in FinishChunks(h, items, secs, stale)
    ensures name in secs && name in Have(items) && IsKV(name)
    ensures FinishChunks(h, items, secs, stale)[name] == ChunkHashes(h, Fill(secs[name], Have(items)[name], stale))
  {
    hide ChunkHashes, Fill;
    var n := |items| - 1;
    if n >= 0 && !(items[n].section == name && IsKV(name) && name in secs) {
      FinishChunksAt(h, items[..n], secs, stale, name);
    }
  }

  lemma PutChunksHeld(h: Hashes, d: Disk, s: Bytes, want: Option<FileMeta>, stale: Bytes)
    requires PutAcc(d, s, want).Some?
    ensures var a := PutAcc(d, s, want).value;
      var d' := PutDisk(d, s, want).value;
      ChunksHeld(h, FinishChunks(h, a.items, d'.secs, stale), d'.secs)
  {
    hide PutAcc, FinishChunks, ChunkHashes, Have;
    var a, d' := PutAcc(d, s, want).value, PutDisk(d, s, want).value;
    PutPatched(d, s, want);
    forall n | n in FinishChunks(h, a.items, d'.secs, stale) && n in d'.secs
      ensures FinishChunks(h, a.items, d'.secs, stale)[n] == ChunkHashes(h, d'.secs[n])
    {
      FinishChunksAt(h, a.items, d'.secs, stale, n);
    }
  }
}

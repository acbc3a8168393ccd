/**
 The chunk hashes recorded for the K/V sections, over every run: when they are the files' own.
 */
module ChunkRuns {
  import opened Bytes
  import opened Options
  import opened Hashing
  import opened SectionNames
  import opened Replica
  import opened ManifestCache
  import opened EngineDelta
  import opened EngineKeeps
  import opened Store
  import opened StoreRuns

  // A published replica's recorded chunk hashes are those of the files that are there, and no
  // such file is shorter than its item.
  ghost predicate Hashed(h: Hashes, d: Disk) {
    Published(d) ==>
      && ChunksHeld(h, d.state.value.chunks, d.secs) && KvOnly(d.state.value.chunks)
      && NotShort(Have(d.state.value.items), d.secs)
  }

  ghost predicate NotShort(have: map<Name, nat>, secs: map<Name, Bytes>) {
    forall n :: n in have && n in secs ==> have[n] <= |secs[n]|
  }

  lemma PutHashed(h: Hashes, d: Disk, s: Bytes, want: Option<FileMeta>, d': Disk)
    requires PutDisk(d, s, want).Some? && Landed(h, PutDisk(d, s, want).value, d')
    ensures Hashed(h, d') && Published(d') && Have(d'.state.value.items).Keys <= d'.secs.Keys
  {
    hide PutAcc, FinishChunks, ChunkHashes, Have, KeptPrefix, PutHeader;
    var e := PutDisk(d, s, want).value;
    var a := PutAcc(d, s, want).value;
    PutPatched(d, s, want);
    assert NotShort(Have(a.items), e.secs) && Have(a.items).Keys <= e.secs.Keys;
    if d' != e {
      var stale :| d' == WithChunks(h, e, stale);
      PutChunksHeld(h, d, s, want, stale);
      forall n | n in FinishChunks(h, a.items, e.secs, stale) ensures IsKV(n) {
        FinishChunksAt(h, a.items, e.secs, stale, n);
      }
    }
  }

  // The delta keeps chunks of a section whose file is gone, and what was recorded for them is not
  // the hashes of zeros.
  ghost predicate KeepsLost(h: Hashes, d: Disk, keeps: map<Name, nat>)
    requires Published(d)
  {
    exists n :: n in keeps && IsKV(n) && n !in d.secs
      && !(keeps[n] / CHUNK <= |ChunksOf(d.state.value.chunks, n)|
           && ChunksOf(d.state.value.chunks, n)[..keeps[n] / CHUNK] == ChunkHashes(h, Zeros(keeps[n])))
  }

  lemma SectionHashed(h: Hashes, d: Disk, s: Bytes, wantSize: int, wantId: string, n: Name)
    requires PutEngine(h, d, s, wantSize, wantId).Rebuilt? && Hashed(h, d)
    requires !KeepsLost(h, d, PutEngine(h, d, s, wantSize, wantId).keeps)
    ensures var d' := PutEngine(h, d, s, wantSize, wantId).disk;
      var chunks := d'.state.value.chunks;
      n in chunks ==> IsKV(n) && (n in d'.secs ==> chunks[n] == ChunkHashes(h, d'.secs[n]))
  {
    hide PutEngine, ChunkHashes, Have, IsKV;
    EngineHashesExact(h, d, s, wantSize, wantId, n);
    assert Applied(h, d, s, wantSize, wantId) by { AppliedIs(h, d, s, wantSize, wantId); }
    var keeps, file := PutEngine(h, d, s, wantSize, wantId).keeps, FileOf(d.secs, n);
    if n in keeps && IsKV(n) {
      var k := keeps[n];
      if n in d.secs {
        var base := ChunksOf(d.state.value.chunks, n);
        BaseChunks(h, file, base, k, n in d.state.value.chunks);
      } else {
        assert Truncate(file, k) == Zeros(k);
      }
    }
  }

  // What PutEngine demands of the base.
  predicate Applied(h: Hashes, d: Disk, s: Bytes, wantSize: int, wantId: string) {
    Published(d) && !PutEngine(h, d, s, wantSize, wantId).Untouched?
  }

  lemma AppliedIs(h: Hashes, d: Disk, s: Bytes, wantSize: int, wantId: string)
    requires PutEngine(h, d, s, wantSize, wantId).Rebuilt?
    ensures Applied(h, d, s, wantSize, wantId)
  {
  }

  lemma LostUnhashed(h: Hashes, d: Disk, s: Bytes, wantSize: int, wantId: string)
    requires PutEngine(h, d, s, wantSize, wantId).Rebuilt? && Published(d)
    requires KeepsLost(h, d, PutEngine(h, d, s, wantSize, wantId).keeps)
    ensures !Hashed(h, PutEngine(h, d, s, wantSize, wantId).disk)
  {
    hide PutEngine, ChunkHashes, Have, IsKV;
    var r := PutEngine(h, d, s, wantSize, wantId);
    var n :| n in r.keeps && IsKV(n) && n !in d.secs
      && !(r.keeps[n] / CHUNK <= |ChunksOf(d.state.value.chunks, n)|
           && ChunksOf(d.state.value.chunks, n)[..r.keeps[n] / CHUNK] == ChunkHashes(h, Zeros(r.keeps[n])));
    EngineHashesExact(h, d, s, wantSize, wantId, n);
    assert Truncate(FileOf(d.secs, n), r.keeps[n]) == Zeros(r.keeps[n]);
    RebuiltComplete(h, d, s, wantSize, wantId);
  }

  // An accepted engine delta against a replica with its own hashes leaves one exactly if it keeps
  // no chunk that was lost.
  lemma EngineHashed(h: Hashes, d: Disk, s: Bytes, wantSize: int, wantId: string)
    requires PutEngine(h, d, s, wantSize, wantId).Rebuilt? && Hashed(h, d) && Published(d)
    ensures var r := PutEngine(h, d, s, wantSize, wantId);
      Hashed(h, r.disk) <==> !KeepsLost(h, d, r.keeps)
  {
    hide PutEngine, ChunkHashes, Have, IsKV, KeepsLost;
    var r := PutEngine(h, d, s, wantSize, wantId);
    if KeepsLost(h, d, r.keeps) {
      LostUnhashed(h, d, s, wantSize, wantId);
    } else {
      EngineLong(h, d, s, wantSize, wantId);
      var chunks := r.disk.state.value.chunks;
      forall n | n in chunks ensures IsKV(n) && (n in r.disk.secs ==> chunks[n] == ChunkHashes(h, r.disk.secs[n])) {
        SectionHashed(h, d, s, wantSize, wantId, n);
      }
    }
  }

  lemma EngineLong(h: Hashes, d: Disk, s: Bytes, wantSize: int, wantId: string)
    requires PutEngine(h, d, s, wantSize, wantId).Rebuilt?
    ensures var d' := PutEngine(h, d, s, wantSize, wantId).disk;
      d'.state.Some? && NotShort(Have(d'.state.value.items), d'.secs) && Have(d'.state.value.items).Keys <= d'.secs.Keys
  {
    hide PayloadB, Have, SaveIdString, SessHeaderBytes, TrailerOk, StartReb, KeptPrefix;
    EngineKept(h, d, s);
  }

  lemma DebrisHashed(h: Hashes, d: Disk, d': Disk)
    requires Hashed(h, d) && Debris(d, d')
    ensures Hashed(h, d')
  {
    hide ChunkHashes, Have, IsKV;
  }

  // The step is an engine put that took effect and kept a lost chunk.
  ghost predicate Loses(h: Hashes, n: Node, e: Event, n': Node) {
    && e.PutEngineSave? && Took(h, n, e, n') && Published(n.disk)
    && KeepsLost(h, n.disk, PutEngine(h, n.disk, e.s, e.wantSize, e.wantId).keeps)
  }

  lemma StepHashed(h: Hashes, n: Node, e: Event, n': Node)
    requires Moves(h, n, e, n') && Hashed(h, n.disk)
    ensures Hashed(h, n'.disk) <==> !Loses(h, n, e, n')
  {
    hide Hashed, PutDisk, PutEngine, Landed, Moves, KeepsLost, Debris, Stands;
    if !Published(n'.disk) {
      NoneHashed(h, n'.disk);
      if e.PutEngineSave? {
        NotTook(h, n, e, n');
      }
    } else {
      StepKeeps(h, n, e, n');
      if Took(h, n, e, n') {
        if e.PutDelta? {
          PutHashed(h, n.disk, e.s, e.want, n'.disk);
        } else {
          AppliedIs(h, n.disk, e.s, e.wantSize, e.wantId);
          EngineHashed(h, n.disk, e.s, e.wantSize, e.wantId);
        }
      } else if n'.disk != n.disk {
        DebrisHashed(h, n.disk, n'.disk);
      }
    }
  }

  lemma NoneHashed(h: Hashes, d: Disk)
    requires !Published(d)
    ensures Hashed(h, d)
  {
  }

  lemma NotTook(h: Hashes, n: Node, e: Event, n': Node)
    requires !Published(n'.disk) && e.PutEngineSave?
    ensures !Took(h, n, e, n')
  {
    if Took(h, n, e, n') {
      RebuiltComplete(h, n.disk, e.s, e.wantSize, e.wantId);
    }
  }

  lemma {:induction false} HashedTo(h: Hashes, ns: seq<Node>, es: seq<Event>, i: nat)
    requires IsRun(h, ns, es) && Hashed(h, ns[0].disk) && i < |ns|
    requires forall k :: 0 <= k < i ==> !Loses(h, ns[k], es[k], ns[k + 1])
    ensures Hashed(h, ns[i].disk)
  {
    hide Hashed, Moves, Loses;
    if i > 0 {
      HashedTo(h, ns, es, i - 1);
      StepHashed(h, ns[i - 1], es[i - 1], ns[i]);
    }
  }

  // Over every run, the recorded chunk hashes are always the files' own if and only if no engine
  // delta that took effect kept chunks whose file was lost.
  lemma ChunksCoherent(h: Hashes, ns: seq<Node>, es: seq<Event>)
    requires IsRun(h, ns, es) && Hashed(h, ns[0].disk)
    ensures (forall i :: 0 <= i < |ns| ==> Hashed(h, ns[i].disk)) <==> (forall k :: 0 <= k < |es| ==> !Loses(h, ns[k], es[k], ns[k + 1]))
  {
    hide Hashed, Moves, Loses;
    if forall k :: 0 <= k < |es| ==> !Loses(h, ns[k], es[k], ns[k + 1]) {
      forall i | 0 <= i < |ns| ensures Hashed(h, ns[i].disk) {
        HashedTo(h, ns, es, i);
      }
    } else {
      var k :| 0 <= k < |es| && Loses(h, ns[k], es[k], ns[k + 1]);
      if Hashed(h, ns[k].disk) {
        StepHashed(h, ns[k], es[k], ns[k + 1]);
        assert !Hashed(h, ns[k + 1].disk);
      }
    }
  }

  // ---- Runs that leave no old state in place ----

  // Every section the state names is there.
  ghost predicate Complete(d: Disk) {
    Published(d) ==> Have(d.state.value.items).Keys <= d.secs.Keys
  }

  lemma TookComplete(h: Hashes, n: Node, e: Event, n': Node)
    requires Took(h, n, e, n')
    ensures Complete(n'.disk)
  {
    hide PutDisk, PutEngine, Landed, Have;
    if e.PutDelta? {
      PutHashed(h, n.disk, e.s, e.want, n'.disk);
    } else {
      EngineLong(h, n.disk, e.s, e.wantSize, e.wantId);
    }
  }

  lemma {:induction false} CompleteTo(h: Hashes, ns: seq<Node>, es: seq<Event>, i: nat)
    requires IsRun(h, ns, es) && Complete(ns[0].disk) && i < |ns| && forall k :: 0 <= k < i ==> !Stands(h, ns[k], es[k])
    ensures Complete(ns[i].disk)
  {
    hide Moves, Have, Took, PutEngine, Stands;
    if i > 0 && Published(ns[i].disk) {
      CompleteTo(h, ns, es, i - 1);
      StepKeeps(h, ns[i - 1], es[i - 1], ns[i]);
      if Took(h, ns[i - 1], es[i - 1], ns[i]) {
        TookComplete(h, ns[i - 1], es[i - 1], ns[i]);
      }
    }
  }

  lemma NothingLost(h: Hashes, n: Node, e: Event, n': Node)
    requires Complete(n.disk)
    ensures !Loses(h, n, e, n')
  {
    hide PutEngine, ChunkHashes, Have, IsKV;
    if Loses(h, n, e, n') {
      var r := PutEngine(h, n.disk, e.s, e.wantSize, e.wantId);
      var m :| m in r.keeps && IsKV(m) && m !in n.disk.secs
        && !(r.keeps[m] / CHUNK <= |ChunksOf(n.disk.state.value.chunks, m)|
             && ChunksOf(n.disk.state.value.chunks, m)[..r.keeps[m] / CHUNK] == ChunkHashes(h, Zeros(r.keeps[m])));
      EngineHashesExact(h, n.disk, e.s, e.wantSize, e.wantId, m);
      NothingKept(h, ChunksOf(n.disk.state.value.chunks, m), []);
    }
  }

  // Over every run in which no operation left an old state in place, recorded chunk hashes are the
  // files' and every section's file is there.
  lemma ChunksWhole(h: Hashes, ns: seq<Node>, es: seq<Event>, i: nat)
    requires IsRun(h, ns, es) && Hashed(h, ns[0].disk) && Complete(ns[0].disk) && i < |ns|
    requires forall k :: 0 <= k < i ==> !Stands(h, ns[k], es[k])
    ensures Hashed(h, ns[i].disk) && Complete(ns[i].disk)
  {
    hide Hashed, Moves, Loses, Complete;
    forall k | 0 <= k < i ensures !Loses(h, ns[k], es[k], ns[k + 1]) {
      CompleteTo(h, ns, es, k);
      NothingLost(h, ns[k], es[k], ns[k + 1]);
    }
    HashedTo(h, ns, es, i);
    CompleteTo(h, ns, es, i);
  }
}

/**
 The receiver's directory for one key as the code works on it (internal/kvshare/store.go): files
 rewritten step by step, any write able to fail or to be the last before a crash. Every operation
 is one step per key, as the key's lock is held until finish ends.
 */
module Store {
  import opened Bytes
  import opened Options
  import opened Hashing
  import opened SessFile
  import opened SectionNames
  import opened Delta
  import opened DeltaStream
  import opened Replica
  import opened ManifestCache
  import opened EngineDelta
  import opened EngineKeeps
  import opened Rebuilding

  datatype Io = Done | Error | Crash
  datatype Outcome = Ok | Refused | Failed | Crashed
  datatype Progress = More | Ended | Halt(out: Outcome)

  // What an interrupted removal may leave: any part of what was there.
  ghost predicate Debris(d: Disk, d': Disk) {
    && (d'.state == d.state || d'.state.None?)
    && (d'.frames == d.frames || d'.frames.None?)
    && (forall n :: n in d'.secs ==> n in d.secs && d'.secs[n] == d.secs[n])
  }

  function WithChunks(h: Hashes, d: Disk, stale: Bytes): Disk
    requires d.state.Some?
  {
    var st := d.state.value;
    d.(state := Some(st.(chunks := FinishChunks(h, st.items, d.secs, stale))))
  }

  // The directory a put wrote, its chunk hashes recorded or not.
  ghost predicate Landed(h: Hashes, e: Disk, d: Disk) {
    e.state.Some? && (d == e || exists stale :: d == WithChunks(h, e, stale))
  }

  // The manifest finish builds, hashing only what was written.
  function FinishMan(h: Hashes, st: State, secs: map<Name, Bytes>, keeps: map<Name, nat>, prev: map<Name, seq<Bytes>>): Option<Manifest> {
    var ms := FinishSections(h, st.items, secs, keeps, prev);
    if ms.None? then None else Some(Manifest(st.model, st.config, st.size, ms.value, st.saveId))
  }

  // ---- The store as a state machine ----

  datatype Node = Node(disk: Disk, man: Option<Manifest>)

  // What became of an operation's writes and removals: it was stopped, by a crash or a failed write
  // or removal; the old state was rewritten as not complete; a removal took the state file; a
  // removal took another file.
  datatype Faults = Faults(stopped: bool, marked: bool, gone: bool, lost: bool)

  const SMOOTH: Faults := Faults(false, true, false, false)

  datatype Event =
    | Reading
    | PutDelta(s: Bytes, want: Option<FileMeta>, faults: Faults)
    | PutEngineSave(s: Bytes, wantSize: int, wantId: string, faults: Faults)
    | Removing(faults: Faults)
    | Restart

  // What removals leave: the state file exactly if it was not taken, and a part of the rest, all
  // of it exactly if nothing was taken.
  ghost predicate Cleared(d: Disk, f: Faults, d': Disk) {
    && Debris(d, d') && d'.state == (if f.gone then None else d.state)
    && (f.lost <==> (d'.frames, d'.secs) != (d.frames, d.secs))
  }

  ghost predicate PutSaved(h: Hashes, n: Node, s: Bytes, want: Option<FileMeta>, n': Node) {
    && PutDisk(n.disk, s, want).Some?
    && var e, a := PutDisk(n.disk, s, want).value, PutAcc(n.disk, s, want).value;
    && Landed(h, e, n'.disk)
    && (n'.man.None? || n'.man == FinishMan(h, e.state.value, e.secs, a.keeps, PrevBlocks(n.disk, PutHeader(s, want).value, n.man)))
  }

  function CachedBlocks(man: Option<Manifest>): map<Name, seq<Bytes>> {
    if man.Some? then BlocksByName(man.value.sections) else map[]
  }

  ghost predicate EngineSaved(h: Hashes, n: Node, r: EngineResult, n': Node) {
    && r.Rebuilt? && n'.disk == r.disk && r.disk.state.Some?
    && (n'.man.None? || n'.man == FinishMan(h, r.disk.state.value, r.disk.secs, r.keeps, CachedBlocks(n.man)))
  }

  // The replica is of the header's model and configuration, or there is none to be removed first.
  predicate Usable(d: Disk, hd: Header) {
    d.state.None? || Base(d, hd.model, hd.config).Some?
  }

  // A put, step by step. A bad header is followed by the removal. Then a replica of no use is
  // removed, and one of use is marked; if that fails, the removal follows. From there on no state
  // is complete until the new one is written.
  ghost predicate PutMoves(h: Hashes, n: Node, s: Bytes, want: Option<FileMeta>, f: Faults, n': Node) {
    var hd := PutHeader(s, want);
    if hd.None? then
      n'.man.None? && Cleared(n.disk, f, n'.disk) && (!f.stopped ==> n'.disk == ABSENT)
    else if !Usable(n.disk, hd.value) && !f.gone then
      f.stopped && n'.man.None? && Cleared(n.disk, f, n'.disk)
    else if Base(n.disk, hd.value.model, hd.value.config).Some? && !f.marked then
      f.stopped && n'.man.None? && Cleared(n.disk, f, n'.disk)
    else if f.stopped then
      n'.man.None? && (!Published(n'.disk) || PutSaved(h, n, s, want, n'))
    else
      PutSaved(h, n, s, want, n') || (PutDisk(n.disk, s, want).None? && n' == Node(ABSENT, None))
  }

  // An engine put that applies: the state is marked; if that fails, the removal follows.
  ghost predicate EngineMoves(h: Hashes, n: Node, r: EngineResult, f: Faults, n': Node) {
    if !f.marked then
      f.stopped && n'.man.None? && Cleared(n.disk, f, n'.disk)
    else if f.stopped then
      n'.man.None? && (!Published(n'.disk) || EngineSaved(h, n, r, n'))
    else
      EngineSaved(h, n, r, n') || (r.Dropped? && n' == Node(ABSENT, None))
  }

  ghost predicate Moves(h: Hashes, n: Node, e: Event, n': Node) {
    match e
    case Reading => n'.disk == n.disk && (n'.man == n.man || n'.man == ManifestOf(h, n.disk))
    case PutDelta(s, want, f) => PutMoves(h, n, s, want, f, n')
    case PutEngineSave(s, wantSize, wantId, f) => (
      var r := PutEngine(h, n.disk, s, wantSize, wantId);
      if r.Untouched? then n' == n else EngineMoves(h, n, r, f, n'))
    case Removing(f) => n'.man.None? && Cleared(n.disk, f, n'.disk) && (!f.stopped ==> n'.disk == ABSENT)
    case Restart => n'.disk == n.disk && n'.man.None?
  }

  lemma DebrisTwice(a: Disk, b: Disk, c: Disk)
    requires Debris(a, b) && Debris(b, c)
    ensures Debris(a, c)
  {
  }

  // Two removals, one after the other.
  function Then(f: Faults, g: Faults): Faults {
    Faults(f.stopped || g.stopped, f.marked || g.marked, f.gone || g.gone, f.lost || g.lost)
  }

  lemma ClearedTwice(a: Disk, f: Faults, b: Disk, g: Faults, c: Disk)
    requires Cleared(a, f, b) && Cleared(b, g, c)
    ensures Cleared(a, Then(f, g), c)
  {
    DebrisTwice(a, b, c);
    if f.lost && b.secs != a.secs {
      assert a.secs.Keys != b.secs.Keys;
      assert c.secs != a.secs;
    }
    if !f.lost && g.lost {
      assert (c.frames, c.secs) != (a.frames, a.secs);
    }
  }

  lemma TakeSection(a: Disk, f: Faults, b: Disk, n: Name)
    requires Cleared(a, f, b) && n in b.secs
    ensures Cleared(a, f.(lost := true), b.(secs := b.secs - {n})) && |b.secs - {n}| < |b.secs|
  {
    assert n in a.secs && n !in b.secs - {n};
    assert (b.secs - {n}).Keys == b.secs.Keys - {n};
  }

  lemma TakeFrames(a: Disk, f: Faults, b: Disk)
    requires Cleared(a, f, b) && b.frames.Some?
    ensures Cleared(a, f.(lost := true), b.(frames := None))
  {
  }

  lemma StillCleared(d: Disk, f: Faults, d': Disk)
    requires f.marked || Cleared(d, f, d') || Cleared(d, f.(stopped := false), d')
    ensures f.marked || Cleared(d, f, d')
  {
  }

  // The faults of an operation that failed before the old state was marked, its removal included.
  lemma AfterDrop(a: Disk, f: Faults, b: Disk, g: Faults, c: Disk) returns (r: Faults)
    requires (if f.marked then !Published(b) else Cleared(a, f, b)) && Cleared(b, g, c) && !g.marked
    ensures r == Then(f, g).(stopped := true)
    ensures if f.marked then !Published(c) else Cleared(a, r, c)
  {
    r := Then(f, g).(stopped := true);
    if f.marked {
      NothingLeft(b, g, c);
    } else {
      ClearedTwice(a, f, b, g, c);
    }
  }

  lemma NothingCleared(d: Disk, f: Faults)
    requires !f.gone && !f.lost
    ensures Cleared(d, f, d)
  {
  }

  lemma NothingLeft(a: Disk, f: Faults, b: Disk)
    requires !Published(a) && Cleared(a, f, b)
    ensures !Published(b)
  {
  }

  // Nothing of the old state is left that is complete.
  predicate PastMarking(d: Disk, s: Bytes, want: Option<FileMeta>, f: Faults) {
    var hd := PutHeader(s, want);
    hd.Some? && (Usable(d, hd.value) || f.gone) && (Base(d, hd.value.model, hd.value.config).Some? ==> f.marked)
  }

  lemma PutHeaderless(h: Hashes, n: Node, s: Bytes, want: Option<FileMeta>, f: Faults, d: Disk)
    requires PutHeader(s, want).None? && Cleared(n.disk, f, d) && (!f.stopped ==> d == ABSENT)
    ensures Moves(h, n, PutDelta(s, want, f), Node(d, None)) && (Published(d) <==> Published(n.disk) && !f.gone)
  {
    hide PutHeader;
  }

  // A put stopped before the old state was marked or gone, or just after.
  lemma PutUnready(h: Hashes, n: Node, s: Bytes, want: Option<FileMeta>, f: Faults, d: Disk)
    requires PutHeader(s, want).Some? && f.stopped
    requires var hd := PutHeader(s, want).value;
      if f.marked then Base(n.disk, hd.model, hd.config).Some? && !Published(d) else Cleared(n.disk, f, d)
    ensures Moves(h, n, PutDelta(s, want, f), Node(d, None))
    ensures Published(d) <==> Published(n.disk) && !f.gone && !PastMarking(n.disk, s, want, f)
  {
    hide PutHeader, PutSaved, Debris;
  }

  lemma PutLate(h: Hashes, n: Node, s: Bytes, want: Option<FileMeta>, f: Faults, d: Disk)
    requires PastMarking(n.disk, s, want, f)
    requires !f.stopped ==> PutDisk(n.disk, s, want).None? && d == ABSENT
    requires !Published(d) || PutDisk(n.disk, s, want) == Some(d)
    ensures Moves(h, n, PutDelta(s, want, f), Node(d, None))
  {
    hide PutAcc, PutHeader;
  }

  lemma PutDone(h: Hashes, n: Node, s: Bytes, want: Option<FileMeta>, f: Faults, e: Disk, keeps: map<Name, nat>, n': Node)
    requires CacheOk(h, n) && PutDisk(n.disk, s, want) == Some(e) && PutAcc(n.disk, s, want).value.keeps == keeps
    requires Landed(h, e, n'.disk)
    requires n'.man.None? || n'.man == FinishMan(h, e.state.value, e.secs, keeps, PrevBlocks(n.disk, PutHeader(s, want).value, n.man))
    requires PastMarking(n.disk, s, want, f) && !f.stopped
    ensures Moves(h, n, PutDelta(s, want, f), n') && (n'.man.None? || n'.man == ManifestOf(h, n'.disk))
  {
    hide ManifestOf, PutAcc, PutHeader, Landed, FinishMan, PrevBlocks;
    PutSavedCoherent(h, n, s, want, n');
  }

  lemma EngineRefused(h: Hashes, n: Node, s: Bytes, wantSize: int, wantId: string, f: Faults)
    requires !Applies(h, n.disk, s, wantSize, wantId)
    ensures PutEngine(h, n.disk, s, wantSize, wantId).Untouched? && Moves(h, n, PutEngineSave(s, wantSize, wantId, f), n)
  {
    hide Applies, EngineMoves;
  }

  lemma AppliesTo(h: Hashes, d: Disk, s: Bytes, wantSize: int, wantId: string)
    requires Applies(h, d, s, wantSize, wantId)
    ensures !PutEngine(h, d, s, wantSize, wantId).Untouched?
  {
    hide Applies, EngineReb, TrailerOk;
  }

  lemma RebuiltIs(h: Hashes, d: Disk, s: Bytes, wantSize: int, wantId: string, hd: EHeader, b: Reb)
    requires Applies(h, d, s, wantSize, wantId) && ReadEngineHeader(h, s) == Some(hd)
    requires InS(s, StartReb(h, d, hd)) && b == PayloadB(h, s, StartReb(h, d, hd), hd.fileSize)
    ensures PutEngine(h, d, s, wantSize, wantId) ==
      if b.Broken? || b.p < ENGINE_HEADER || |b.frames| < SESS_HEADER || b.size < SESS_HEADER || !TrailerOk(h, s, b, hd) then Dropped
      else Rebuilt(EngineDisk(h, hd, b), b.keeps)
  {
    hide PayloadB, StartReb, ReadEngineHeader, TrailerOk, EngineDisk;
  }

  lemma EngineUnready(h: Hashes, n: Node, s: Bytes, wantSize: int, wantId: string, f: Faults, d: Disk)
    requires !PutEngine(h, n.disk, s, wantSize, wantId).Untouched? && f.stopped
    requires if f.marked then !Published(d) else Cleared(n.disk, f, d)
    ensures Moves(h, n, PutEngineSave(s, wantSize, wantId, f), Node(d, None))
    ensures Published(d) <==> Published(n.disk) && !f.gone && !f.marked
  {
    hide PutEngine, EngineSaved, Debris;
  }

  lemma EngineLate(h: Hashes, n: Node, s: Bytes, wantSize: int, wantId: string, f: Faults, d: Disk)
    requires var r := PutEngine(h, n.disk, s, wantSize, wantId);
      && !r.Untouched? && f.marked && (!f.stopped ==> r.Dropped? && d == ABSENT)
      && (!Published(d) || (r.Rebuilt? && d == r.disk))
    ensures Moves(h, n, PutEngineSave(s, wantSize, wantId, f), Node(d, None))
  {
    hide PutEngine;
  }

  lemma EngineDone(h: Hashes, n: Node, s: Bytes, wantSize: int, wantId: string, f: Faults, n': Node)
    requires EngineSaved(h, n, PutEngine(h, n.disk, s, wantSize, wantId), n') && CacheOk(h, n) && f.marked && !f.stopped
    ensures Moves(h, n, PutEngineSave(s, wantSize, wantId, f), n') && (n'.man.None? || n'.man == ManifestOf(h, n'.disk))
  {
    hide PutEngine, FinishMan, ManifestOf, BlocksByName;
    EngineSavedCoherent(h, n, s, wantSize, wantId, n');
  }

  lemma CacheIs(h: Hashes, n: Node)
    requires n.man.None? || n.man == ManifestOf(h, n.disk)
    ensures CacheOk(h, n)
  {
    hide ManifestOf;
  }

  // The cached manifest is the one the files have.
  ghost predicate CacheOk(h: Hashes, n: Node) {
    n.man.None? || n.man == ManifestOf(h, n.disk)
  }

  lemma LandedMan(h: Hashes, e: Disk, d: Disk, keeps: map<Name, nat>, prev: map<Name, seq<Bytes>>)
    requires Landed(h, e, d) && e.state.value.complete
    requires FinishSections(h, e.state.value.items, e.secs, keeps, prev) == ManSections(h, e.state.value.items, e.secs)
    ensures FinishMan(h, e.state.value, e.secs, keeps, prev) == ManifestOf(h, d)
  {
    hide FinishSections, ManSections, FinishChunks;
  }

  lemma PutSavedCoherent(h: Hashes, n: Node, s: Bytes, want: Option<FileMeta>, n': Node)
    requires CacheOk(h, n) && PutSaved(h, n, s, want, n')
    ensures CacheOk(h, n')
  {
    hide PutAcc, PutHeader, Landed, FinishMan, FinishSections, ManSections, ManifestOf, PrevBlocks, Have;
    var e, a := PutDisk(n.disk, s, want).value, PutAcc(n.disk, s, want).value;
    PutManifestCoherent(h, n.disk, n.man, s, want);
    LandedMan(h, e, n'.disk, a.keeps, PrevBlocks(n.disk, PutHeader(s, want).value, n.man));
  }

  lemma EngineSavedCoherent(h: Hashes, n: Node, s: Bytes, wantSize: int, wantId: string, n': Node)
    requires CacheOk(h, n) && EngineSaved(h, n, PutEngine(h, n.disk, s, wantSize, wantId), n')
    ensures CacheOk(h, n')
  {
    hide PutEngine, FinishMan, FinishSections, ManSections, ManifestOf, BlocksByName;
    var r := PutEngine(h, n.disk, s, wantSize, wantId);
    EngineManifestCoherent(h, n.disk, n.man, s, wantSize, wantId);
    assert r.disk.state.value.complete by { RebuiltComplete(h, n.disk, s, wantSize, wantId); }
    LandedMan(h, r.disk, r.disk, r.keeps, CachedBlocks(n.man));
  }

  lemma RebuiltComplete(h: Hashes, d: Disk, s: Bytes, wantSize: int, wantId: string)
    requires PutEngine(h, d, s, wantSize, wantId).Rebuilt?
    ensures Published(PutEngine(h, d, s, wantSize, wantId).disk)
  {
    hide EngineReb;
  }

  // Every step, whatever becomes of it, keeps the cached manifest the files' own.
  lemma StepCoherent(h: Hashes, n: Node, e: Event, n': Node)
    requires CacheOk(h, n) && Moves(h, n, e, n')
    ensures CacheOk(h, n')
  {
    hide PutEngine, PutDisk, PutSaved, EngineSaved, ManifestOf, CacheOk, Cleared, Base, PutHeader;
    if e.PutDelta? && PutSaved(h, n, e.s, e.want, n') {
      PutSavedCoherent(h, n, e.s, e.want, n');
    } else if e.PutEngineSave? && EngineSaved(h, n, PutEngine(h, n.disk, e.s, e.wantSize, e.wantId), n') {
      EngineSavedCoherent(h, n, e.s, e.wantSize, e.wantId, n');
    } else {
      assert n' == n || (e.Reading? && n'.man == n.man) || n'.man.None? || n'.man == ManifestOf(h, n'.disk);
      CacheSame(h, n, n');
    }
  }

  lemma CacheSame(h: Hashes, n: Node, n': Node)
    requires CacheOk(h, n) && ((n'.disk == n.disk && n'.man == n.man) || n'.man.None? || n'.man == ManifestOf(h, n'.disk))
    ensures CacheOk(h, n')
  {
    hide ManifestOf;
  }

  class ReplicaStore {
    const h: Hashes
    var state: Option<State>
    var frames: Option<Bytes>
    var secs: map<Name, Bytes>
    var man: Option<Manifest>

    ghost function View(): Disk
      reads this
    {
      Disk(state, frames, secs)
    }

    // The cached manifest is the one the files have.
    ghost predicate Coherent()
      reads this
    {
      man.None? || man == ManifestOf(h, View())
    }

    constructor (hashes: Hashes)
      ensures h == hashes && View() == ABSENT && man.None? && Coherent()
    {
      h, state, frames, secs, man := hashes, None, None, map[], None;
    }

    // A temporary file, then a rename: the old content or the new, never a torn one.
    method WriteState(st: State) returns (o: Io, ghost wrote: bool)
      modifies this`state
      ensures state == if wrote then Some(st) else old(state)
      ensures (o.Done? ==> wrote) && (o.Error? ==> !wrote)
    {
      var ok: bool := *;
      if ok {
        state := Some(st);
      }
      wrote := ok;
      var crash: bool := *;
      o := if crash then Crash else if ok then Done else Error;
    }

    method WriteFrames(x: Bytes) returns (o: Io)
      modifies this`frames
      ensures frames == old(frames) || frames == Some(x)
      ensures o.Done? ==> frames == Some(x)
    {
      var ok: bool := *;
      if ok {
        frames := Some(x);
      }
      var crash: bool := *;
      o := if crash then Crash else if ok then Done else Error;
    }

    // Files go one by one, in any order; a failure or a crash leaves the rest.
    method RemoveAll() returns (o: Io, ghost f: Faults)
      modifies this`state, this`frames, this`secs
      ensures Cleared(old(View()), f, View()) && !f.marked
      ensures o.Done? <==> !f.stopped
      ensures o.Done? ==> View() == ABSENT
    {
      o, f := Done, Faults(false, false, false, false);
      while state.Some? || frames.Some? || secs != map[]
        invariant Cleared(old(View()), f, View()) && !f.marked && !f.stopped
        decreases |secs|, (if state.Some? then 1 else 0) + if frames.Some? then 1 else 0
      {
        var fault: Io := *;
        if !fault.Done? {
          f := f.(stopped := true);
          return fault, f;
        }
        ghost var was := View();
        var next: bool := *;
        if secs != map[] && (next || (state.None? && frames.None?)) {
          var n :| n in secs;
          secs := secs - {n};
          TakeSection(old(View()), f, was, n);
          f := f.(lost := true);
        } else if state.Some? && (next || frames.None?) {
          state := None;
          f := f.(gone := true);
        } else {
          frames := None;
          TakeFrames(old(View()), f, was);
          f := f.(lost := true);
        }
      }
    }

    // The error path of a put: whatever is there goes, and the cached manifest with it.
    method Drop(refused: bool) returns (r: Outcome, ghost f: Faults)
      modifies this
      ensures man.None? && Cleared(old(View()), f, View()) && !f.marked
      ensures r == (if refused then Refused else Failed) || (r.Crashed? && f.stopped)
      ensures !f.stopped ==> View() == ABSENT
    {
      var o;
      o, f := RemoveAll();
      man := None;
      r := if o.Crash? then Crashed else if refused then Refused else Failed;
    }

    // Cut the section's file to what is kept and append the rest.
    method PatchSection(name: Name, keep: nat, data: Bytes) returns (o: Io)
      modifies this`secs
      ensures o.Done? ==> secs == old(secs)[name := Truncate(FileOf(old(secs), name), keep) + data]
    {
      secs := secs[name := Truncate(FileOf(secs, name), keep)];
      var torn: Io := *;
      if !torn.Done? {
        var n :| 0 <= n <= |data|;
        secs := secs[name := secs[name] + data[..n]];
        return torn;
      }
      secs := secs[name := secs[name] + data];
      return Done;
    }

    method HashSection(name: Name, keep: nat, n: nat, prev: seq<Bytes>) returns (r: Option<seq<Bytes>>)
      ensures r == if !ValidKey(name) || name !in secs then None else ReuseHashes(h, secs[name], keep, n, prev)
    {
      if !ValidKey(name) || name !in secs {
        return None;
      }
      var reuse := if keep / BLOCK <= |prev| then keep / BLOCK else |prev|;
      if reuse * BLOCK > n {
        return None;
      }
      var tail := HashBlocks(h, secs[name], reuse * BLOCK, n - reuse * BLOCK);
      r := if tail.None? then None else Some(prev[..reuse] + tail.value);
    }

    // The manifest's sections, reusing prev's hashes for the blocks below what each kept, and the
    // K/V sections' chunk hashes.
    method HashItems(items: seq<RItem>, keeps: map<Name, nat>, prev: map<Name, seq<Bytes>>, full: bool, stale: Bytes)
      returns (sections: Option<seq<SectionManifest>>, chunks: map<Name, seq<Word64>>)
      ensures sections == FinishSections(h, items, secs, keeps, prev)
      ensures sections.Some? && full ==> chunks == FinishChunks(h, items, secs, stale)
    {
      hide ReuseHashes, ValidKey, IsKV, ChunkHashes, Fill;
      var out: seq<SectionManifest> := [];
      chunks := map[];
      for i := 0 to |items|
        invariant FinishSections(h, items[..i], secs, keeps, prev) == Some(out)
        invariant full ==> chunks == FinishChunks(h, items[..i], secs, stale)
      {
        var it := items[i];
        assert items[..i + 1][..i] == items[..i];
        if it.section != "" {
          var b := HashSection(it.section, HaveLen(keeps, it.section), it.len, if it.section in prev then prev[it.section] else []);
          if b.None? {
            FinishBroken(h, items, secs, keeps, prev, i);
            return None, chunks;
          }
          out := out + [SectionManifest(it.section, it.len, b.value)];
          if full && IsKV(it.section) {
            var c := HashChunks(h, Fill(secs[it.section], it.len, stale));
            chunks := chunks[it.section := c];
          }
        } else {
          assert !IsKV("") by { NoKV(); }
        }
      }
      assert items[..|items|] == items;
      sections := Some(out);
    }

    // Build the next manifest; after a full put, record the chunk hashes too.
    method Finish(st: State, keeps: map<Name, nat>, prev: map<Name, seq<Bytes>>, full: bool, stale: Bytes)
      requires state == Some(st) && man.None?
      modifies this`state, this`man
      ensures Landed(h, old(View()), View())
      ensures man.None? || man == FinishMan(h, st, secs, keeps, prev)
      ensures !full ==> View() == old(View())
    {
      hide FinishSections, FinishChunks;
      var sections, chunks := HashItems(st.items, keeps, prev, full, stale);
      if sections.None? {
        return;
      }
      if full {
        var o, _ := WriteState(st.(chunks := chunks));
        assert View() == old(View()) || View() == WithChunks(h, old(View()), stale);
        if !o.Done? {
          return;
        }
      }
      var lost: bool := *;
      if !lost {
        man := Some(Manifest(st.model, st.config, st.size, sections.value, st.saveId));
      }
    }

    // The manifest, from the cache or from the files.
    method ReadManifest() returns (m: Option<Manifest>)
      requires Coherent()
      modifies this`man
      ensures Coherent() && m == ManifestOf(h, View()) && (m.Some? ==> man == m)
      ensures Moves(h, Node(old(View()), old(man)), Reading, Node(View(), man))
    {
      if man.Some? {
        return man;
      }
      if state.None? || !state.value.complete {
        return None;
      }
      var st := state.value;
      var sections: seq<SectionManifest> := [];
      for i := 0 to |st.items|
        invariant man.None? && ManSections(h, st.items[..i], secs) == Some(sections)
      {
        var it := st.items[i];
        assert st.items[..i + 1][..i] == st.items[..i];
        if it.section != "" {
          var b := HashSection(it.section, 0, it.len, []);
          NothingReused(h, FileOf(secs, it.section), 0, it.len);
          ReuseHashesSame(h, FileOf(secs, it.section), 0, it.len, []);
          if b.None? {
            ManBroken(h, st.items, secs, i);
            return None;
          }
          sections := sections + [SectionManifest(it.section, it.len, b.value)];
        }
      }
      assert st.items[..|st.items|] == st.items;
      m := Some(Manifest(st.model, st.config, st.size, sections, st.saveId));
      man := m;
    }

    // Before the first section is touched the old replica is marked incomplete, or removed if
    // nothing in it can be kept.
    method Prepare(hd: Header) returns (o: Io, have: map<Name, nat>, ghost f: Faults)
      requires man.None?
      modifies this
      ensures man.None?
      ensures o.Done? ==> !Published(View()) && secs == StartAcc(old(View()), hd).secs && have == StartAcc(old(View()), hd).have
      ensures o.Done? ==> !f.stopped && (Usable(old(View()), hd) || f.gone) && (Base(old(View()), hd.model, hd.config).Some? ==> f.marked)
      ensures if f.marked then Base(old(View()), hd.model, hd.config).Some? && !Published(View()) else Cleared(old(View()), f, View())
    {
      have, f := map[], Faults(false, false, false, false);
      if state.None? {
        return Done, have, f;
      }
      var st := state.value;
      if !st.complete || st.model != hd.model || st.config != hd.config {
        o, f := RemoveAll();
        return;
      }
      have := Have(st.items);
      ghost var wrote;
      o, wrote := WriteState(st.(complete := false));
      f := Faults(!o.Done?, wrote, false, false);
    }

    // The same, with the removal that follows a failure.
    method Ready(hd: Header) returns (ok: bool, r: Outcome, have: map<Name, nat>, ghost f: Faults)
      requires man.None?
      modifies this
      ensures man.None?
      ensures ok ==> !Published(View()) && secs == StartAcc(old(View()), hd).secs && have == StartAcc(old(View()), hd).have
      ensures ok ==> !f.stopped && (Usable(old(View()), hd) || f.gone) && (Base(old(View()), hd.model, hd.config).Some? ==> f.marked)
      ensures !ok ==> f.stopped && (r.Failed? || r.Crashed?)
      ensures if f.marked then Base(old(View()), hd.model, hd.config).Some? && !Published(View()) else Cleared(old(View()), f, View())
    {
      hide Debris, Cleared, Usable, Base, StartAcc;
      ghost var d0, g := View(), SMOOTH;
      var o;
      o, have, f := Prepare(hd);
      ok, r := o.Done?, Ok;
      if o.Crash? {
        r, f := Crashed, f.(stopped := true);
        StillCleared(d0, f, View());
      } else if o.Error? {
        ghost var d1 := View();
        r, g := Drop(false);
        f := AfterDrop(d0, f, d1, g, View());
      }
    }

    // The next item of the stream: a frame is kept aside, a section patched.
    method ApplyNext(d: DeltaReader, items: seq<RItem>, framing: Bytes, have: map<Name, nat>, keeps: map<Name, nat>)
      returns (r: Progress, items': seq<RItem>, framing': Bytes, have': map<Name, nat>, keeps': map<Name, nat>)
      requires d.Valid()
      modifies d, this`secs
      ensures d.Valid()
      ensures var step := PutStep(d.s, d.header, Acc(old(d.Cur()), items, framing, old(secs), have, keeps));
        && (r.Ended? ==> step.Stop? && secs == old(secs) && (items', framing', have', keeps') == (items, framing, have, keeps))
        && (r.More? ==> step == Go(Acc(d.Cur(), items', framing', secs, have', keeps')))
        && (r == Halt(Refused) ==> step.Refuse?)
        && r != Halt(Ok)
    {
      hide NextItem, Available, ValidKey, Truncate, HaveLen, FileOf;
      items', framing', have', keeps' := items, framing, have, keeps;
      var e := d.Next();
      if e.End? {
        r := Ended;
        return;
      }
      if e.Fail? {
        r := Halt(Refused);
        return;
      }
      var it := e.item;
      if it.section == "" {
        var data := d.Take(it.len - it.keep);
        items' := items + [RItem("", it.len, |framing|)];
        framing' := framing + data;
        r := More;
        return;
      }
      if it.keep > HaveLen(have, it.section) || !ValidKey(it.section) {
        r := Halt(Refused);
        return;
      }
      var data := d.Take(it.len - it.keep);
      var o := PatchSection(it.section, it.keep, data);
      if !o.Done? {
        r := Halt(if o.Crash? then Crashed else Failed);
        return;
      }
      if |data| != it.len - it.keep {
        r := Halt(Refused);
        return;
      }
      keeps', have' := keeps[it.section := it.keep], have - {it.section};
      items' := items + [RItem(it.section, it.len, 0)];
      r := More;
    }

    // The items of the stream one by one, until it ends.
    method Apply(s: Bytes, hd: Header, start: map<Name, nat>)
      returns (r: Outcome, items: seq<RItem>, framing: Bytes, have: map<Name, nat>, keeps: map<Name, nat>)
      requires ReadHeader(s) == Some(hd) && !Published(View())
      modifies this`secs
      ensures !Published(View())
      ensures var run := PutRun(s, hd, Acc(Start(hd), [], [], old(secs), start, map[]));
        && (r.Ok? ==> run.Some? && run.value == Acc(run.value.cur, items, framing, secs, have, keeps))
        && (r.Refused? ==> run.None?)
    {
      hide PutStep;
      items, framing, have, keeps := [], [], start, map[];
      var d := new DeltaReader(s, hd);
      ghost var a0 := Acc(Start(hd), [], [], secs, start, map[]);
      var p := More;
      while p.More?
        invariant d.Valid() && d.s == s && d.header == hd && fresh(d)
        invariant p.More? ==> PutRun(s, hd, a0) == PutRun(s, hd, Acc(d.Cur(), items, framing, secs, have, keeps))
        invariant p.Ended? ==> PutRun(s, hd, a0).Some?
        invariant p.Ended? ==> var b := PutRun(s, hd, a0).value; b == Acc(b.cur, items, framing, secs, have, keeps)
        invariant p == Halt(Refused) ==> PutRun(s, hd, a0).None?
        invariant p != Halt(Ok)
        decreases if p.More? then d.left + 1 else 0
      {
        p, items, framing, have, keeps := ApplyNext(d, items, framing, have, keeps);
      }
      r := if p.Ended? then Ok else p.out;
    }

    // Sections the new file no longer has go, then frames.bin and the new state are written.
    method Publish(st: State, framing: Bytes, have: map<Name, nat>) returns (o: Io)
      requires !Published(View())
      modifies this`state, this`frames, this`secs
      ensures o.Done? ==> View() == Disk(Some(st), Some(framing), old(secs) - have.Keys)
      ensures !o.Done? ==> !Published(View()) || View() == Disk(Some(st), Some(framing), old(secs) - have.Keys)
      ensures o.Error? ==> !Published(View())
    {
      var left := have.Keys;
      while left != {}
        invariant left <= have.Keys && secs == old(secs) - (have.Keys - left) && state == old(state)
        decreases |left|
      {
        var crash: bool := *;
        if crash {
          return Crash;
        }
        var n :| n in left;
        left := left - {n};
        secs := secs - {n};
      }
      assert have.Keys - {} == have.Keys;
      o := WriteFrames(framing);
      if !o.Done? {
        return;
      }
      ghost var wrote;
      o, wrote := WriteState(st);
    }

    // The end of a put: publish and, once that is done, build the manifest; a failure before that
    // removes what there is.
    method Complete(st: State, framing: Bytes, have: map<Name, nat>, keeps: map<Name, nat>, prev: map<Name, seq<Bytes>>, full: bool, stale: Bytes)
      returns (r: Outcome)
      requires man.None? && !Published(View())
      modifies this
      ensures var e := Disk(Some(st), Some(framing), old(secs) - have.Keys);
        && (r.Ok? ==> Landed(h, e, View()) && (!full ==> View() == e) && (man.None? || man == FinishMan(h, st, e.secs, keeps, prev)))
        && (!r.Ok? ==> !r.Refused? && man.None? && (!Published(View()) || (r.Crashed? && View() == e)))
    {
      hide Landed, FinishMan;
      var o := Publish(st, framing, have);
      if o.Done? {
        Finish(st, keeps, prev, full, stale);
        r := Ok;
      } else if o.Crash? {
        r := Crashed;
      } else {
        ghost var d1, f := View(), SMOOTH;
        r, f := Drop(false);
        NothingLeft(d1, f, View());
      }
    }

    // A put that stopped among its sections: what there is goes, unless the process does.
    method GiveUp(why: Outcome, ghost f: Faults) returns (r: Outcome, ghost f': Faults)
      requires !why.Ok? && !f.stopped && man.None? && !Published(View())
      modifies this
      ensures man.None? && !Published(View()) && (r == why || r.Crashed?)
      ensures f'.marked == f.marked && (f.gone ==> f'.gone)
      ensures !f'.stopped ==> why.Refused? && r.Refused? && View() == ABSENT
    {
      hide Cleared;
      if why.Crashed? {
        return why, f.(stopped := true);
      }
      ghost var d, g := View(), SMOOTH;
      r, g := Drop(why.Refused?);
      NothingLeft(d, g, View());
      f' := Then(f.(stopped := why.Failed?), g);
    }

    // A put of a delta stream. A failure removes the replica; a crash leaves what was written.
    // After a failure that is reported, a replica is published exactly if it was before, the removal
    // did not get to the state file, and the put had a bad header, found a replica of no use, or
    // could not mark it.
    method Put(s: Bytes, want: Option<FileMeta>, stale: Bytes) returns (r: Outcome, ghost f: Faults)
      requires Coherent()
      modifies this
      ensures Coherent()
      ensures r.Ok? ==> !f.stopped && PutDisk(old(View()), s, want).Some?
      ensures r.Refused? ==> PutDisk(old(View()), s, want).None?
      ensures r.Refused? && PutHeader(s, want).Some? ==> !Published(View())
      ensures r.Refused? || r.Failed? ==>
        (Published(View()) <==> Published(old(View())) && !f.gone && !PastMarking(old(View()), s, want, f))
      ensures Moves(h, Node(old(View()), old(man)), PutDelta(s, want, f), Node(View(), man))
    {
      hide PutRun, Have, ManifestOf, FinishSections, FinishChunks, ReadHeader, BlocksByName, PrevBlocks, Moves, Debris, Cleared, PutSaved, CacheOk, Usable, Base, StartAcc, FinishMan, Landed;
      ghost var n0 := Node(View(), man);
      CacheIs(h, n0);
      var got := PutHeader(s, want);
      if got.None? {
        r, f := Drop(true);
        PutHeaderless(h, n0, s, want, f, View());
        return;
      }
      var hd := got.value;
      var prev := PrevBlocks(Disk(state, frames, secs), hd, man);
      man := None;
      var ready, start;
      ready, r, start, f := Ready(hd);
      if !ready {
        PutUnready(h, n0, s, want, f, View());
        return;
      }
      StartIs(n0.disk, hd);
      var items, framing, have, keeps;
      r, items, framing, have, keeps := Apply(s, hd, start);
      if !r.Ok? {
        r, f := GiveUp(r, f);
        PutLate(h, n0, s, want, f, View());
        return;
      }
      var st := NewState(hd, items, SaveIdOf(want));
      ghost var e := Disk(Some(st), Some(framing), secs - have.Keys);
      r := Complete(st, framing, have, keeps, prev, true, stale);
      if r.Ok? {
        PutDone(h, n0, s, want, f, e, keeps, Node(View(), man));
      } else {
        f := f.(stopped := true);
        PutLate(h, n0, s, want, f, View());
      }
    }

    // The delta's header, if it builds the declared save from the one the replica holds.
    method EngineBase(s: Bytes, wantSize: int, wantId: string) returns (hd: Option<EHeader>)
      ensures hd.Some? <==> Applies(h, View(), s, wantSize, wantId)
      ensures hd.Some? ==> hd == ReadEngineHeader(h, s) && Published(View())
    {
      hide ReadEngineHeader, SaveIdString, Int64;
      hd := ReadEngineHeader(h, s);
      if hd.None? || Int64(hd.value.fileSize) != wantSize || SaveIdString(hd.value.new_) != wantId {
        return None;
      }
      if state.None? || !state.value.complete || state.value.model != hd.value.model || state.value.config != hd.value.config
         || state.value.saveId != SaveIdString(hd.value.base) {
        return None;
      }
    }

    // A put of an engine delta against the save the replica holds. After a failure that is reported,
    // a replica is published exactly if it could not be marked and the removal did not get to the
    // state file.
    method PutEngineDelta(s: Bytes, wantSize: int, wantId: string, stale: Bytes) returns (r: Outcome, ghost f: Faults)
      requires Coherent()
      modifies this
      ensures Coherent()
      ensures var e := PutEngine(h, old(View()), s, wantSize, wantId);
        && (e.Untouched? ==> r.Refused? && View() == old(View()) && man == old(man))
        && (r.Ok? ==> !f.stopped && e.Rebuilt?)
        && (r.Refused? && !e.Untouched? ==> e.Dropped? && !Published(View()))
        && (!e.Untouched? && (r.Refused? || r.Failed?) ==> (Published(View()) <==> !f.gone && !f.marked))
      ensures Moves(h, Node(old(View()), old(man)), PutEngineSave(s, wantSize, wantId, f), Node(View(), man))
    {
      hide PayloadB, Have, ManifestOf, FinishSections, FinishChunks, BlocksByName, SaveIdString, SessHeaderBytes, StartReb, ReadEngineHeader, Moves, Debris, Cleared,
           CacheOk, PutEngine, Word, Landed, FinishMan, CachedBlocks, Applies;
      ghost var n0 := Node(View(), man);
      ghost var g;
      CacheIs(h, n0);
      f := SMOOTH;
      var hd := EngineBase(s, wantSize, wantId);
      if hd.None? {
        r := Refused;
        EngineRefused(h, n0, s, wantSize, wantId, f);
        return;
      }
      var prev := CachedBlocks(man);
      man := None;
      assert |s| >= ENGINE_HEADER by { LongEnough(h, s); }
      var b := new Rebuild(h, s, Disk(state, frames, secs), hd.value);
      ghost var wrote;
      var o;
      o, wrote := WriteState(state.value.(complete := false));
      AppliesTo(h, n0.disk, s, wantSize, wantId);
      if !o.Done? {
        f := Faults(true, wrote, false, false);
        NothingCleared(n0.disk, f);
        if o.Crash? {
          r := Crashed;
        } else {
          ghost var d1 := View();
          r, g := Drop(false);
          f := AfterDrop(n0.disk, f, d1, g, View());
        }
        EngineUnready(h, n0, s, wantSize, wantId, f, View());
        return;
      }
      b.Payload();
      RebuiltIs(h, n0.disk, s, wantSize, wantId, hd.value, b.View());
      // the section files are rewritten as the payload is read: a crash leaves any of that
      var crash: bool := *;
      if crash {
        secs := *;
        r, f := Crashed, f.(stopped := true);
        EngineUnready(h, n0, s, wantSize, wantId, f, View());
        return;
      }
      secs := b.secs;
      if b.err || b.p < ENGINE_HEADER || |b.frames| < SESS_HEADER || b.size < SESS_HEADER
         || !TrailerOk(h, s, Reb(b.p, b.frames, b.items, b.have, b.chunks, b.keeps, b.size, b.secs, []), hd.value) {
        ghost var d1 := View();
        r, g := Drop(true);
        NothingLeft(d1, g, View());
        f := Then(f, g);
        EngineLate(h, n0, s, wantSize, wantId, f, View());
        return;
      }
      var header := SessHeaderBytes(h, hd.value.model, hd.value.config, b.size - SESS_HEADER);
      var st := State(hd.value.model, hd.value.config, hd.value.fileSize, [], true, b.items, SaveIdString(hd.value.new_), b.chunks, true);
      r := Complete(st, header + b.frames[SESS_HEADER..], b.have, b.keeps, prev, false, stale);
      if r.Ok? {
        EngineDone(h, n0, s, wantSize, wantId, f, Node(View(), man));
      } else {
        f := f.(stopped := true);
        EngineLate(h, n0, s, wantSize, wantId, f, View());
      }
    }

    // The file's items one after the other.
    method AssembleFile(items: seq<RItem>, framing: Bytes) returns (x: Option<Bytes>)
      ensures x == Assemble(items, framing, secs)
    {
      hide PieceOf, Total;
      var out: Bytes := [];
      for i := 0 to |items|
        invariant Assemble(items[..i], framing, secs) == Some(out)
      {
        assert items[..i + 1][..i] == items[..i];
        var p := PieceOf(items[i], framing, secs);
        if p.None? {
          AssembleBroken(items, framing, secs, i);
          return None;
        }
        out := out + p.value;
      }
      assert items[..|items|] == items;
      x := Some(out);
    }

    // Read the assembled payload back, check every K/V chunk against its hash, append the trailer.
    method SealTrailer(st: State, x: Bytes) returns (r: Option<Bytes>)
      requires |x| == Total(st.items)
      ensures r == Seal(h, st, x)
    {
      hide ChunkHashes, Total, Trailer;
      var off := 0;
      assert st.items[..0] == [] && Total([]) == 0 by { NoTotal(); }
      for i := 0 to |st.items|
        invariant off == Total(st.items[..i])
        invariant forall k :: 0 <= k < i && st.items[k].section != "" && st.items[k].section in st.chunks ==>
          ChunkHashes(h, Span(st.items, x, k)) == st.chunks[st.items[k].section]
      {
        var it := st.items[i];
        TotalSplit(st.items, i);
        TotalPush(st.items[..i], it);
        assert st.items[..i + 1] == st.items[..i] + [it];
        if it.section != "" && it.section in st.chunks {
          var c := HashChunks(h, x[off..off + it.len]);
          if c != st.chunks[it.section] {
            assert ChunkHashes(h, Span(st.items, x, i)) != st.chunks[it.section];
            return None;
          }
        }
        off := off + it.len;
      }
      if |x| < SESS_HEADER || |x| + SESS_TRAILER != st.size {
        return None;
      }
      r := Some(x + Trailer(h, x));
    }

    // The session file, assembled and checked; nothing is published that fails the check.
    method Materialize(stale: Bytes) returns (r: Option<Bytes>)
      ensures r == Materialized(h, View(), stale)
    {
      hide Assemble, Seal, Fill;
      if state.None? || !state.value.complete || frames.None? {
        return None;
      }
      var st := state.value;
      var x := AssembleFile(st.items, frames.value);
      if x.None? {
        return None;
      }
      if st.trailer {
        r := SealTrailer(st, x.value);
      } else {
        r := if h.digest(Fill(x.value, st.size, stale)) == st.digest then x else None;
      }
    }

    // Eviction removes the replica and forgets its manifest.
    method Evict() returns (o: Io, ghost f: Faults)
      modifies this
      ensures man.None? && Coherent() && (o.Done? <==> !f.stopped)
      ensures Moves(h, Node(old(View()), old(man)), Removing(f), Node(View(), man))
    {
      o, f := RemoveAll();
      man := None;
    }
  }

  lemma StartIs(d: Disk, hd: Header)
    ensures StartAcc(d, hd) == Acc(Start(hd), [], [], StartAcc(d, hd).secs, StartAcc(d, hd).have, map[])
  {
  }

  lemma NoKV()
    ensures !IsKV("")
  {
  }

  lemma NoTotal()
    ensures Total([]) == 0
  {
  }

  lemma {:induction false} FinishBroken(h: Hashes, items: seq<RItem>, secs: map<Name, Bytes>, keeps: map<Name, nat>,
                                        prev: map<Name, seq<Bytes>>, i: nat)
    requires i < |items| && items[i].section != ""
    requires !ValidKey(items[i].section) || items[i].section !in secs
      || ReuseHashes(h, secs[items[i].section], HaveLen(keeps, items[i].section), items[i].len, PrevOf(prev, items[i].section)).None?
    ensures FinishSections(h, items, secs, keeps, prev).None?
  {
    var n := |items| - 1;
    if i < n {
      FinishBroken(h, items[..n], secs, keeps, prev, i);
    }
  }

  lemma {:induction false} AssembleBroken(items: seq<RItem>, frames: Bytes, secs: map<Name, Bytes>, i: nat)
    requires i < |items| && PieceOf(items[i], frames, secs).None?
    ensures Assemble(items, frames, secs).None?
  {
    var n := |items| - 1;
    if i < n {
      AssembleBroken(items[..n], frames, secs, i);
    }
  }

  lemma LongEnough(h: Hashes, s: Bytes)
    requires ReadEngineHeader(h, s).Some?
    ensures |s| >= ENGINE_HEADER
  {
  }

  lemma {:induction false} ManBroken(h: Hashes, items: seq<RItem>, secs: map<Name, Bytes>, i: nat)
    requires i < |items| && items[i].section != "" && SectionHashes(h, items[i], secs).None?
    ensures ManSections(h, items, secs).None?
  {
    var n := |items| - 1;
    if i < n {
      ManBroken(h, items[..n], secs, i);
    }
  }
}

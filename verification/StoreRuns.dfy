/**
 Safety of the replica store over every run: any order of manifest reads, puts of any streams,
 engine deltas, removals and restarts, each of them able to stop half-way.
 */
module StoreRuns {
  import opened Bytes
  import opened Options
  import opened Hashing
  import opened SectionNames
  import opened Delta
  import opened DeltaStream
  import opened Replica
  import opened Replication
  import opened ManifestCache
  import opened EngineDelta
  import opened Store

  ghost predicate IsRun(h: Hashes, ns: seq<Node>, es: seq<Event>) {
    |ns| == |es| + 1 && forall i :: 0 <= i < |es| ==> Moves(h, ns[i], es[i], ns[i + 1])
  }

  // ---- The cached manifest ----

  lemma {:induction false} CacheCoherent(h: Hashes, ns: seq<Node>, es: seq<Event>, i: nat)
    requires IsRun(h, ns, es) && CacheOk(h, ns[0]) && i < |ns|
    ensures CacheOk(h, ns[i])
  {
    hide Moves, CacheOk;
    if i > 0 {
      CacheCoherent(h, ns, es, i - 1);
      StepCoherent(h, ns[i - 1], es[i - 1], ns[i]);
    }
  }

  // ---- The new replica or none ----

  // The step put a new replica in place.
  ghost predicate Took(h: Hashes, n: Node, e: Event, n': Node) {
    match e
    case PutDelta(s, want, _) => PutDisk(n.disk, s, want).Some? && Landed(h, PutDisk(n.disk, s, want).value, n'.disk)
    case PutEngineSave(s, wantSize, wantId, _) =>
      PutEngine(h, n.disk, s, wantSize, wantId).Rebuilt? && n'.disk == PutEngine(h, n.disk, s, wantSize, wantId).disk
    case _ => false
  }

  // What is promised of each operation: a put leaves the complete new replica or none, an engine
  // put the untouched old one, the new one or none, a removal none.
  ghost predicate Atomic(h: Hashes, n: Node, e: Event, n': Node) {
    match e
    case PutDelta(_, _, _) => !Published(n'.disk) || Took(h, n, e, n')
    case PutEngineSave(_, _, _, _) => n'.disk == n.disk || !Published(n'.disk) || Took(h, n, e, n')
    case Removing(_) => !Published(n'.disk)
    case _ => true
  }

  // The old replica's state is still in place, by what was there, what came and what failed: no
  // removal got to the state file, and the put's header was bad, the replica was of no use to it, or
  // it could not be marked; an engine put applied and could not mark it.
  predicate Stands(h: Hashes, n: Node, e: Event) {
    match e
    case PutDelta(s, want, f) => (
      var hd := PutHeader(s, want);
      Published(n.disk) && !f.gone && (hd.None? || Base(n.disk, hd.value.model, hd.value.config).None? || !f.marked))
    case PutEngineSave(s, wantSize, wantId, f) => Applies(h, n.disk, s, wantSize, wantId) && !f.gone && !f.marked
    case Removing(f) => Published(n.disk) && !f.gone
    case _ => false
  }

  // For an engine put the old replica may stay, if whole: torn is it only if another file went.
  predicate Torn(h: Hashes, n: Node, e: Event) {
    Stands(h, n, e) && (e.PutEngineSave? ==> e.faults.lost)
  }

  // The state a put writes is not the one already there. The source's states carry the time they
  // were written, so theirs never are.
  ghost predicate Rewrites(h: Hashes, n: Node, e: Event) {
    match e
    case PutDelta(s, want, _) => (
      PutDisk(n.disk, s, want).Some? && n.disk.state.Some? ==>
        n.disk.state.value.(chunks := map[]) != PutDisk(n.disk, s, want).value.state.value)
    case PutEngineSave(s, wantSize, wantId, _) => (
      PutEngine(h, n.disk, s, wantSize, wantId).Rebuilt? ==> n.disk.state != PutEngine(h, n.disk, s, wantSize, wantId).disk.state)
    case _ => true
  }

  lemma PutAtomic(h: Hashes, n: Node, s: Bytes, want: Option<FileMeta>, f: Faults, n': Node)
    requires PutMoves(h, n, s, want, f, n') && Rewrites(h, n, PutDelta(s, want, f))
    ensures var e := PutDelta(s, want, f); Atomic(h, n, e, n') <==> !Torn(h, n, e)
  {
    hide PutAcc, PutHeader, FinishMan, FinishChunks;
  }

  lemma EngineAtomic(h: Hashes, n: Node, s: Bytes, wantSize: int, wantId: string, f: Faults, n': Node)
    requires Moves(h, n, PutEngineSave(s, wantSize, wantId, f), n') && Rewrites(h, n, PutEngineSave(s, wantSize, wantId, f))
    ensures var e := PutEngineSave(s, wantSize, wantId, f); Atomic(h, n, e, n') <==> !Torn(h, n, e)
  {
    hide PutEngine, FinishMan;
    AppliesExactly(h, n.disk, s, wantSize, wantId);
    if PutEngine(h, n.disk, s, wantSize, wantId).Rebuilt? {
      RebuiltComplete(h, n.disk, s, wantSize, wantId);
    }
  }

  lemma AppliesExactly(h: Hashes, d: Disk, s: Bytes, wantSize: int, wantId: string)
    ensures Applies(h, d, s, wantSize, wantId) <==> !PutEngine(h, d, s, wantSize, wantId).Untouched?
    ensures Applies(h, d, s, wantSize, wantId) ==> Published(d)
  {
    hide EngineReb, ReadEngineHeader, TrailerOk, EngineDisk, SaveIdString;
  }

  // One operation is all or nothing if and only if it did not leave the old state in place: a
  // condition on what was there, what came, and which writes and removals failed.
  lemma StepAtomic(h: Hashes, n: Node, e: Event, n': Node)
    requires Moves(h, n, e, n') && Rewrites(h, n, e)
    ensures Atomic(h, n, e, n') <==> !Torn(h, n, e)
  {
    hide PutDisk, PutEngine, PutMoves, EngineMoves, Rewrites, PutHeader, Base, Applies, Took;
    match e
    case PutDelta(s, want, f) => PutAtomic(h, n, s, want, f, n');
    case PutEngineSave(s, wantSize, wantId, f) => EngineAtomic(h, n, s, wantSize, wantId, f, n');
    case _ =>
  }

  // Over every run, every put, engine put and removal is all or nothing if and only if none of
  // them left the old state in place.
  lemma RunAtomic(h: Hashes, ns: seq<Node>, es: seq<Event>)
    requires IsRun(h, ns, es) && forall i :: 0 <= i < |es| ==> Rewrites(h, ns[i], es[i])
    ensures (forall i :: 0 <= i < |es| ==> Atomic(h, ns[i], es[i], ns[i + 1])) <==>
            (forall i :: 0 <= i < |es| ==> !Torn(h, ns[i], es[i]))
  {
    hide Moves, Rewrites, Atomic, Torn;
    if forall i :: 0 <= i < |es| ==> Atomic(h, ns[i], es[i], ns[i + 1]) {
      forall i | 0 <= i < |es| ensures !Torn(h, ns[i], es[i]) {
        StepAtomic(h, ns[i], es[i], ns[i + 1]);
      }
    }
    if forall i :: 0 <= i < |es| ==> !Torn(h, ns[i], es[i]) {
      forall i | 0 <= i < |es| ensures Atomic(h, ns[i], es[i], ns[i + 1]) {
        StepAtomic(h, ns[i], es[i], ns[i + 1]);
      }
    }
  }

  // A put that refuses its stream leaves nothing published, unless it refused the header or found a
  // replica of no use, and no removal got to the state file: then the old state is still published.
  // A stream refused past a good header, against a replica that was marked, leaves nothing.
  lemma RefusedLeavesNone(h: Hashes, n: Node, s: Bytes, want: Option<FileMeta>, f: Faults, n': Node)
    requires Moves(h, n, PutDelta(s, want, f), n') && PutDisk(n.disk, s, want).None?
    ensures Published(n'.disk) <==> Stands(h, n, PutDelta(s, want, f))
    ensures Published(n'.disk) ==> n'.disk.state == n.disk.state
  {
    hide PutDisk, PutHeader;
  }

  // ---- What is published ----

  // Nothing was written or removed.
  ghost predicate Quiet(h: Hashes, n: Node, e: Event) {
    match e
    case PutEngineSave(s, wantSize, wantId, _) => PutEngine(h, n.disk, s, wantSize, wantId).Untouched?
    case PutDelta(_, _, _) => false
    case Removing(_) => false
    case _ => true
  }

  // The step left the replica it found: whole, or its state over a part of its files.
  ghost predicate Left(h: Hashes, n: Node, e: Event, n': Node) {
    || (Quiet(h, n, e) && n'.disk == n.disk)
    || (Stands(h, n, e) && Published(n'.disk) && Debris(n.disk, n'.disk))
  }

  lemma StepKeeps(h: Hashes, n: Node, e: Event, n': Node)
    requires Moves(h, n, e, n') && Published(n'.disk)
    ensures Took(h, n, e, n') || Left(h, n, e, n')
  {
    hide ManifestOf, PutAcc, PutHeader, PutEngine, FinishMan, Landed, Debris;
    if e.PutEngineSave? {
      AppliesExactly(h, n.disk, e.s, e.wantSize, e.wantId);
    }
  }

  // The put at j took effect, and none after it did: each left the replica it found.
  ghost predicate LastPut(h: Hashes, ns: seq<Node>, es: seq<Event>, j: nat, i: nat) {
    && |ns| == |es| + 1 && j < i < |ns| && Took(h, ns[j], es[j], ns[j + 1])
    && forall k :: j < k < i ==> !Took(h, ns[k], es[k], ns[k + 1]) && Left(h, ns[k], es[k], ns[k + 1])
  }

  // Over every run from an empty directory, a published replica is the one the last put that took
  // effect left, with its state as that put wrote it and none of its files changed since.
  lemma {:induction false} PublishedFromAPut(h: Hashes, ns: seq<Node>, es: seq<Event>, i: nat) returns (j: nat)
    requires IsRun(h, ns, es) && ns[0].disk == ABSENT && i < |ns| && Published(ns[i].disk)
    ensures LastPut(h, ns, es, j, i)
    ensures Debris(ns[j + 1].disk, ns[i].disk) && ns[i].disk.state == ns[j + 1].disk.state
    ensures (forall k :: j < k < i ==> !Stands(h, ns[k], es[k])) ==> ns[i].disk == ns[j + 1].disk
  {
    hide ManifestOf, PutDisk, PutEngine, Took, Moves, Stands;
    assert Moves(h, ns[i - 1], es[i - 1], ns[i]);
    StepKeeps(h, ns[i - 1], es[i - 1], ns[i]);
    if Took(h, ns[i - 1], es[i - 1], ns[i]) {
      j := i - 1;
    } else {
      j := PublishedFromAPut(h, ns, es, i - 1);
      DebrisTwice(ns[j + 1].disk, ns[i - 1].disk, ns[i].disk);
    }
  }

  lemma {:induction false} RunTotals(s: Bytes, hd: Header, a: Acc)
    requires a.cur.pos <= |s| && a.cur.built == Total(a.items) <= hd.size && |a.items| + a.cur.left == hd.items
    requires PutRun(s, hd, a).Some?
    ensures var b := PutRun(s, hd, a).value;
      && Total(b.items) <= hd.size && |b.items| <= hd.items
      && (|b.items| == hd.items ==> Total(b.items) == hd.size)
    decreases a.cur.left
  {
    hide Total, ValidKey, ReadFull, Word, Text, AcceptItem, Truncate;
    var r := PutStep(s, hd, a);
    if r.Go? {
      TotalPush(a.items, r.acc.items[|a.items|]);
      assert r.acc.items == a.items + [r.acc.items[|a.items|]];
      RunTotals(s, hd, r.acc);
    }
  }

  // An accepted put declares a size its items never pass, and reach if as many came as the header
  // counts.
  lemma PutTotals(d: Disk, s: Bytes, want: Option<FileMeta>)
    requires PutDisk(d, s, want).Some?
    ensures var st := PutDisk(d, s, want).value.state.value;
      var hd := PutHeader(s, want).value;
      && st.complete && st.size == hd.size && st.digest == hd.digest && !st.trailer
      && Total(st.items) <= hd.size && |st.items| <= hd.items
      && (|st.items| == hd.items ==> Total(st.items) == hd.size)
  {
    hide PutRun, Have;
    RunTotals(s, PutHeader(s, want).value, StartAcc(d, PutHeader(s, want).value));
  }

  // What a run publishes of an ordinary put is what the last put that took effect declared: the
  // bytes are of the declared size and digest exactly if its items reach the size; a shorter file
  // is hashed with what the buffer held.
  lemma PublishedDigest(h: Hashes, ns: seq<Node>, es: seq<Event>, i: nat, stale: Bytes)
    requires IsRun(h, ns, es) && ns[0].disk == ABSENT && i < |ns|
    requires Materialized(h, ns[i].disk, stale).Some? && !ns[i].disk.state.value.trailer
    ensures exists j: nat ::
      && LastPut(h, ns, es, j, i) && es[j].PutDelta? && PutHeader(es[j].s, es[j].want).Some?
      && DeclaredBy(h, PutHeader(es[j].s, es[j].want).value, ns[i].disk.state.value,
                    Materialized(h, ns[i].disk, stale).value, stale)
  {
    hide ManifestOf, PutDisk, PutEngine, Assemble, Seal, Fill, LastPut, Moves, Left;
    var j := PublishedFromAPut(h, ns, es, i);
    assert Took(h, ns[j], es[j], ns[j + 1]) by { LastTook(h, ns, es, j, i); }
    if es[j].PutEngineSave? {
      EngineTrailer(h, ns[j].disk, es[j].s, es[j].wantSize, es[j].wantId);
      assert false;
    } else {
      PutTotals(ns[j].disk, es[j].s, es[j].want);
      LandedState(h, PutDisk(ns[j].disk, es[j].s, es[j].want).value, ns[j + 1].disk);
      assert PutHeader(es[j].s, es[j].want).Some? by { PutHasHeader(ns[j].disk, es[j].s, es[j].want); }
      FillWhole(Materialized(h, ns[i].disk, stale).value, ns[i].disk.state.value.size, stale);
      assert DeclaredBy(h, PutHeader(es[j].s, es[j].want).value, ns[i].disk.state.value, Materialized(h, ns[i].disk, stale).value, stale);
    }
  }

  lemma LastTook(h: Hashes, ns: seq<Node>, es: seq<Event>, j: nat, i: nat)
    requires LastPut(h, ns, es, j, i)
    ensures j < i < |ns| == |es| + 1 && Took(h, ns[j], es[j], ns[j + 1])
  {
  }

  // x, published from the state st, is what the header hd declared.
  predicate DeclaredBy(h: Hashes, hd: Header, st: State, x: Bytes, stale: Bytes) {
    && st.digest == hd.digest && st.size == hd.size && |x| <= hd.size
    && h.digest(Fill(x, hd.size, stale)) == hd.digest
    && (|x| == hd.size && h.digest(x) == hd.digest <==> Total(st.items) == hd.size)
    && (|st.items| == hd.items ==> Total(st.items) == hd.size)
  }

  lemma FillWhole(x: Bytes, size: nat, stale: Bytes)
    ensures |x| == size ==> Fill(x, size, stale) == x
  {
  }

  lemma PutHasHeader(d: Disk, s: Bytes, want: Option<FileMeta>)
    requires PutDisk(d, s, want).Some?
    ensures PutHeader(s, want).Some?
  {
  }

  lemma EngineTrailer(h: Hashes, d: Disk, s: Bytes, wantSize: int, wantId: string)
    requires PutEngine(h, d, s, wantSize, wantId).Rebuilt?
    ensures PutEngine(h, d, s, wantSize, wantId).disk.state.Some? && PutEngine(h, d, s, wantSize, wantId).disk.state.value.trailer
  {
  }

  lemma LandedState(h: Hashes, e: Disk, d: Disk)
    requires Landed(h, e, d)
    ensures e.state.Some? && d.state.Some? && d.secs == e.secs && d.frames == e.frames
    ensures var a, b := e.state.value, d.state.value;
      a.digest == b.digest && a.size == b.size && a.items == b.items && a.trailer == b.trailer && a.complete == b.complete
  {
  }

  // The check does miss a short file: from a stream that ends before its one item, an empty file
  // is published under the digest of a one-byte file, of whatever byte the buffer held.
  lemma ShortFilePublished(h: Hashes, held: byte)
    ensures var s := DELTA_MAGIC + U64(1) + h.digest([held]) + U64(0) + U64(0) + U64(1);
      && PutDisk(ABSENT, s, None).Some?
      && Materialized(h, PutDisk(ABSENT, s, None).value, [held]) == Some([])
      && PutDisk(ABSENT, s, None).value.state.value.size == 1
  {
    hide U64, ReadHeader;
    var s := DELTA_MAGIC + U64(1) + h.digest([held]) + U64(0) + U64(0) + U64(1);
    CutStreamAccepted(h.digest([held]));
    var hd := Header(1, h.digest([held]), 0, 0, 1);
    var a0 := StartAcc(ABSENT, hd);
    assert NextItem(s, hd, Start(hd)).0.End?;
    RunStops(s, hd, a0);
    assert Fill([], 1, [held]) == [held];
  }

  // ---- The engine's trailer ----

  // However a replica was damaged, an engine save is published only if every recorded chunk hash
  // is the hash of that chunk of the file, and with the payload's own hash in its trailer.
  lemma SealedChunks(h: Hashes, d: Disk, stale: Bytes)
    requires Materialized(h, d, stale).Some? && d.state.value.trailer
    ensures var st, y := d.state.value, Materialized(h, d, stale).value;
      && |y| == st.size && Total(st.items) + 16 == |y| && Total(st.items) >= 64
      && (forall k :: 0 <= k < |st.items| && st.items[k].section != "" && st.items[k].section in st.chunks ==>
            var at := Total(st.items[..k]);
            at + st.items[k].len <= |y| - 16 && st.chunks[st.items[k].section] == ChunkHashes(h, y[at..at + st.items[k].len]))
      && y[|y| - 16..] == U64(h.sess(y[64..|y| - 16])) + Ascii("STRSEND") + [1]
  {
    hide Assemble, U64, ChunkHashes;
    var st, y := d.state.value, Materialized(h, d, stale).value;
    var x := Assemble(st.items, d.frames.value, d.secs).value;
    assert y[..|y| - 16] == x && y[|y| - 16..] == Trailer(h, x);
    assert Ascii("STRSEND") + [1] == SESS_END;
    forall k | 0 <= k < |st.items| && st.items[k].section != "" && st.items[k].section in st.chunks
      ensures Total(st.items[..k]) + st.items[k].len <= |y| - 16
      ensures st.chunks[st.items[k].section] == ChunkHashes(h, y[Total(st.items[..k])..Total(st.items[..k]) + st.items[k].len])
    {
      TotalSplit(st.items, k);
      assert Span(st.items, x, k) == y[Total(st.items[..k])..Total(st.items[..k]) + st.items[k].len];
    }
  }
}

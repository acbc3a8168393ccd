/**
 The alias table over every run of a mesh: nodes write, gossip, push tables, restart and fail to
 save in any order, and messages are lost, repeated and reordered.
 */
module AliasMesh {
  import opened Options
  import opened TextOrder
  import opened AliasHistory
  import opened AliasMerge
  import opened AliasStore
  import opened AliasExchange
  import opened AliasService

  // A node, with what it has written or accepted, and what it gossiped again after merges.
  datatype Peer = Peer(self: string, table: Table, disk: Table, seen: set<Write>, sent: set<Write>, resent: nat)

  // Broadcasts and pushed tables stay available for ever: any may arrive at any time, or never.
  datatype Mesh = Mesh(peers: seq<Peer>, casts: set<Write>, pushes: set<Table>, written: set<Write>)

  datatype Event =
    | Submit(at: nat, name: Name, op: Op, ts: int, fate: Fate)
    | Cast(at: nat, w: Write, fate: Fate)
    | Push(at: nat, table: Table, fate: Fate)
    | Offer(at: nat)
    | Restart(at: nat)

  function Cores(t: Table): set<Write> {
    set n | n in t :: Write(n, Core(t[n]))
  }

  function Accepted(r: Table): set<Write> {
    set n | n in r && ValidName(n) && AcceptRemote(r[n]) :: Write(n, Core(r[n]))
  }

  predicate Enabled(m: Mesh, e: Event) {
    && e.at < |m.peers|
    && (e.Cast? ==> e.w in m.casts)
    && (e.Push? ==> e.table in m.pushes)
  }

  function Submits(p: Peer, n: Name, entry: Entry, fate: Fate): Peer {
    var t := p.table[n := entry];
    p.(table := TableAfter(p.table, t, fate), disk := DiskAfter(p.disk, t, fate),
       seen := if fate.Saved? then p.seen + {Write(n, Core(entry))} else p.seen)
  }

  function Receives(p: Peer, r: Table, fate: Fate): Peer {
    if ChangedNames(p.table, r) == {} then p.(seen := p.seen + Accepted(r))
    else
      var t := MergedTable(p.table, r);
      var q := p.(table := TableAfter(p.table, t, fate), disk := DiskAfter(p.disk, t, fate));
      if fate.Saved? then
        q.(seen := p.seen + Accepted(r), sent := p.sent + News(p.table, r), resent := p.resent + |News(p.table, r)|)
      else q
  }

  function Restarts(p: Peer): Peer {
    p.(table := p.disk, seen := p.seen + Cores(p.disk))
  }

  function Gossiped(p: Peer, r: Table, fate: Fate): set<Write> {
    if ChangedNames(p.table, r) != {} && fate.Saved? then News(p.table, r) else {}
  }

  function Next(m: Mesh, e: Event): (m': Mesh)
    requires Enabled(m, e)
    ensures |m'.peers| == |m.peers|
  {
    var p := m.peers[e.at];
    match e
    case Submit(i, n, op, ts, fate) =>
      var a := Submitted(p.table, n, op, ts, p.self);
      if a.Refused? then m
      else
        var w := Write(n, Core(a.entry));
        m.(peers := m.peers[i := Submits(p, n, a.entry, fate)],
           casts := if fate.Saved? then m.casts + {w} else m.casts,
           written := if fate.Saved? then m.written + {w} else m.written)
    case Cast(i, w, fate) =>
      var r := map[w.name := w.entry];
      m.(peers := m.peers[i := Receives(p, r, fate)], casts := m.casts + Gossiped(p, r, fate))
    case Push(i, r, fate) =>
      m.(peers := m.peers[i := Receives(p, r, fate)], casts := m.casts + Gossiped(p, r, fate))
    case Offer(i) => m.(pushes := m.pushes + {p.table})
    case Restart(i) => m.(peers := m.peers[i := Restarts(p)], written := m.written + Cores(p.disk))
  }

  // ---- What every run keeps ----

  predicate WrittenOk(ws: set<Write>) {
    && (forall w :: w in ws ==> w.entry.history == [] && ValidName(w.name) && AcceptRemote(w.entry))
    && (forall v, w :: v in ws && w in ws && SameWriting(v, w) ==> v == w)
  }

  predicate SameWriting(v: Write, w: Write) {
    v.name == w.name && v.entry.ver == w.entry.ver && v.entry.writer == w.entry.writer
  }

  predicate Wrote(w: Write, n: Name, v: Version) {
    w.name == n && !w.entry.deleted && VersionOf(w.entry) == v
  }

  predicate HistoryOk(ws: set<Write>, n: Name, h: History) {
    |h| <= MAX_HISTORY && forall v :: v in h ==> exists w :: w in ws && Wrote(w, n, v)
  }

  predicate Known(ws: set<Write>, t: Table) {
    forall n :: n in t ==> Write(n, Core(t[n])) in ws && HistoryOk(ws, n, t[n].history)
  }

  // An entry that a failed write left on its writer's disk, and nowhere else.
  predicate Unheard(ws: set<Write>, self: string, n: Name, e: Entry) {
    && ValidName(n) && AcceptRemote(e) && e.writer == self && HistoryOk(ws, n, e.history)
    && forall w :: w in ws && w.name == n && w.entry.writer == self ==> w.entry.ver < e.ver
  }

  predicate DiskOk(ws: set<Write>, p: Peer) {
    forall n :: n in p.disk ==>
      || (Write(n, Core(p.disk[n])) in ws && HistoryOk(ws, n, p.disk[n].history))
      || Unheard(ws, p.self, n, p.disk[n])
  }

  // No write by self of n is past what t holds.
  predicate OwnHeld(ws: set<Write>, self: string, t: Table) {
    forall w :: w in ws && w.entry.writer == self ==> w.name in t && w.entry.ver <= t[w.name].ver
  }

  predicate Ahead(t: Table, d: Table) {
    forall n :: n in t ==> n in d && Compare(t[n], d[n]) <= 0
  }

  predicate SeenOk(p: Peer) {
    && (forall n :: n in p.table ==> Write(n, Core(p.table[n])) in p.seen)
    && (forall w :: w in p.seen ==> w.name in p.table && Compare(w.entry, p.table[w.name]) <= 0)
  }

  predicate PeerOk(ws: set<Write>, p: Peer) {
    && Known(ws, p.table) && DiskOk(ws, p) && OwnHeld(ws, p.self, p.table) && OwnHeld(ws, p.self, p.disk)
    && Ahead(p.table, p.disk) && SeenOk(p) && p.seen <= ws
    && p.sent <= p.seen && p.resent == |p.sent|
  }

  predicate Apart(ps: seq<Peer>) {
    forall i, j :: 0 <= i < j < |ps| ==> ps[i].self != ps[j].self
  }

  predicate MeshOk(m: Mesh) {
    && WrittenOk(m.written) && Apart(m.peers) && m.casts <= m.written
    && (forall t :: t in m.pushes ==> Known(m.written, t))
    && (forall i :: 0 <= i < |m.peers| ==> PeerOk(m.written, m.peers[i]))
  }

  // ---- More writes ----

  lemma HistoryGrows(ws: set<Write>, ws': set<Write>, n: Name, h: History)
    requires HistoryOk(ws, n, h) && ws <= ws'
    ensures HistoryOk(ws', n, h)
  {
    forall v | v in h ensures exists w :: w in ws' && Wrote(w, n, v) {
      var w :| w in ws && Wrote(w, n, v);
      assert w in ws';
    }
  }

  lemma KnownGrows(ws: set<Write>, ws': set<Write>, t: Table)
    requires Known(ws, t) && ws <= ws'
    ensures Known(ws', t)
  {
    hide HistoryOk;
    forall n | n in t ensures Write(n, Core(t[n])) in ws' && HistoryOk(ws', n, t[n].history) {
      HistoryGrows(ws, ws', n, t[n].history);
    }
  }

  // A node is not touched by the writes of others.
  lemma PeerGrows(ws: set<Write>, ws': set<Write>, p: Peer)
    requires PeerOk(ws, p) && ws <= ws' && forall w :: w in ws' && w.entry.writer == p.self ==> w in ws
    ensures PeerOk(ws', p)
  {
    hide HistoryOk, Compare, AcceptRemote, ValidName;
    KnownGrows(ws, ws', p.table);
    forall n | n in p.disk && HistoryOk(ws, n, p.disk[n].history) ensures HistoryOk(ws', n, p.disk[n].history) {
      HistoryGrows(ws, ws', n, p.disk[n].history);
    }
  }

  // ---- A node merges ----

  lemma MergedVersion(ws: set<Write>, n: Name, o: Option<Entry>, v: Version)
    requires o.Some? ==> Write(n, Core(o.value)) in ws && HistoryOk(ws, n, o.value.history)
    requires v in VersionsOf(o)
    ensures exists w :: w in ws && Wrote(w, n, v)
  {
    if v !in o.value.history {
      assert Wrote(Write(n, Core(o.value)), n, v);
    }
  }

  lemma MergedKnownAt(ws: set<Write>, n: Name, local: Option<Entry>, remote: Entry)
    requires local.Some? ==> Write(n, Core(local.value)) in ws && HistoryOk(ws, n, local.value.history)
    requires Write(n, Core(remote)) in ws && HistoryOk(ws, n, remote.history) && WrittenOk(ws)
    ensures AcceptRemote(remote) && Merged(local, remote).entry.Some?
    ensures var e := Merged(local, remote).entry.value;
      && Write(n, Core(e)) in ws && HistoryOk(ws, n, e.history)
      && (local.Some? ==> Compare(local.value, e) <= 0) && Compare(remote, e) <= 0
      && (Core(e) == Core(remote) || (local.Some? && Core(e) == Core(local.value)))
  {
    hide Merged, VersionsOf, Versions;
    assert AcceptRemote(Write(n, Core(remote)).entry);
    MergedOrdered(local, remote);
    if local.Some? {
      MergedCaps(local, remote) by { assert AcceptRemote(Write(n, Core(local.value)).entry); }
      CompareSwaps(remote, local.value);
    } else {
      MergedCaps(local, remote);
    }
    var e := Merged(local, remote).entry.value;
    MergedVersions(local, remote);
    forall v | v in e.history ensures exists w :: w in ws && Wrote(w, n, v) {
      assert v in Versions(e) by { InVersions(e, v); }
      if v in VersionsOf(local) { MergedVersion(ws, n, local, v); }
      else { OneVersions(remote); MergedVersion(ws, n, Some(remote), v); }
    }
  }

  lemma OneVersions(e: Entry)
    ensures VersionsOf(Some(e)) == Versions(e)
  {
  }

  lemma InVersions(e: Entry, v: Version)
    requires v in e.history
    ensures v in Versions(e)
  {
  }

  lemma MergedKnown(ws: set<Write>, t: Table, r: Table, n: Name)
    requires Known(ws, t) && Known(ws, r) && WrittenOk(ws)
    ensures n in t ==> n in MergedTable(t, r) && Compare(t[n], MergedTable(t, r)[n]) <= 0
    ensures n in r ==> n in MergedTable(t, r) && Compare(r[n], MergedTable(t, r)[n]) <= 0 && Write(n, Core(r[n])) in Accepted(r)
    ensures n in MergedTable(t, r) ==>
      var e := MergedTable(t, r)[n];
      && Write(n, Core(e)) in ws && HistoryOk(ws, n, e.history)
      && ((n in r && Core(e) == Core(r[n])) || (n in t && Core(e) == Core(t[n])))
  {
    hide Merged, HistoryOk, MergedTable;
    MergedTableAt(t, r, n);
    if n in r {
      assert ValidName(Write(n, Core(r[n])).name);
      MergedKnownAt(ws, n, Find(t, n), r[n]);
    } else if n in t {
      CompareSwaps(t[n], t[n]);
    }
  }

  lemma MergedTableOk(ws: set<Write>, p: Peer, r: Table)
    requires PeerOk(ws, p) && Known(ws, r) && WrittenOk(ws)
    ensures var t := MergedTable(p.table, r);
      && Known(ws, t) && OwnHeld(ws, p.self, t) && Ahead(p.table, t) && SeenOk(p.(table := t, seen := p.seen + Accepted(r)))
      && Accepted(r) <= ws
  {
    hide Merged, HistoryOk, MergedTable, Compare, Core, ValidName, AcceptRemote;
    var t := MergedTable(p.table, r);
    forall n
      ensures n in p.table ==> n in t && Compare(p.table[n], t[n]) <= 0
      ensures n in r ==> n in t && Compare(r[n], t[n]) <= 0
      ensures n in t ==> Write(n, Core(t[n])) in ws && HistoryOk(ws, n, t[n].history) && Write(n, Core(t[n])) in p.seen + Accepted(r)
    {
      MergedKnown(ws, p.table, r, n);
    }
    forall w | w in ws && w.entry.writer == p.self ensures w.name in t && w.entry.ver <= t[w.name].ver {
      VerUp(p.table[w.name], t[w.name]);
    }
    forall w | w in p.seen + Accepted(r) ensures w.name in t && Compare(w.entry, t[w.name]) <= 0 {
      if w in p.seen { CompareTransitive(w.entry, p.table[w.name], t[w.name]); } else { CompareCore(r[w.name], t[w.name]); }
    }
  }

  lemma VerUp(a: Entry, b: Entry)
    requires Compare(a, b) <= 0
    ensures a.ver <= b.ver
  {
  }

  lemma CompareCore(a: Entry, b: Entry)
    ensures Compare(Core(a), b) == Compare(a, b)
  {
  }

  // What is gossiped again is past everything the node has seen of that alias.
  lemma NewsIsNew(ws: set<Write>, p: Peer, r: Table)
    requires PeerOk(ws, p) && Known(ws, r) && WrittenOk(ws)
    ensures News(p.table, r) !! p.seen && News(p.table, r) <= p.seen + Accepted(r) && News(p.table, r) <= ws
    ensures |p.sent + News(p.table, r)| == |p.sent| + |News(p.table, r)|
  {
    hide Merged, HistoryOk, MergedTable, ValidName, AcceptRemote, Known, DiskOk, OwnHeld, Ahead, Accepted, ChangedNames;
    forall w | w in News(p.table, r) ensures w !in p.seen && w in p.seen + Accepted(r) && w in ws {
      var n := w.name;
      MergedKnown(ws, p.table, r, n);
      var e := MergedTable(p.table, r)[n];
      if n in p.table {
        CompareSwaps(p.table[n], e);
        CompareCore(e, p.table[n]);
        assert SeenOk(p);
      }
    }
    assert p.sent !! News(p.table, r);
  }

  lemma UnchangedTable(t: Table, r: Table)
    requires ChangedNames(t, r) == {}
    ensures MergedTable(t, r) == t
  {
    NothingChanged(t, r);
  }

  lemma ReceivesOk(ws: set<Write>, p: Peer, r: Table, fate: Fate)
    requires PeerOk(ws, p) && Known(ws, r) && WrittenOk(ws)
    ensures PeerOk(ws, Receives(p, r, fate)) && Gossiped(p, r, fate) <= ws
  {
    hide Known, PeerOk, MergedTable, Accepted, News, WrittenOk, ChangedNames;
    NewsIsNew(ws, p, r);
    if ChangedNames(p.table, r) == {} {
      NothingNew(ws, p, r);
    } else if fate.Saved? {
      SavedOk(ws, p, r);
    } else if fate.Landed? {
      LandedOk(ws, p, r);
    }
  }

  lemma NothingNew(ws: set<Write>, p: Peer, r: Table)
    requires PeerOk(ws, p) && Known(ws, r) && WrittenOk(ws) && ChangedNames(p.table, r) == {}
    ensures PeerOk(ws, p.(seen := p.seen + Accepted(r)))
  {
    hide Known, HistoryOk, OwnHeld, SeenOk, Ahead, MergedTable, Accepted, WrittenOk, ChangedNames;
    MergedTableOk(ws, p, r);
    UnchangedTable(p.table, r);
    var q := p.(seen := p.seen + Accepted(r));
    assert DiskOk(ws, q) by { DiskSame(ws, p, q); }
  }

  lemma DiskSame(ws: set<Write>, p: Peer, q: Peer)
    requires DiskOk(ws, p) && q.self == p.self && q.disk == p.disk
    ensures DiskOk(ws, q)
  {
    hide HistoryOk, Unheard;
  }

  lemma SavedOk(ws: set<Write>, p: Peer, r: Table)
    requires PeerOk(ws, p) && Known(ws, r) && WrittenOk(ws) && ChangedNames(p.table, r) != {}
    ensures PeerOk(ws, Receives(p, r, Saved))
  {
    hide Known, OwnHeld, SeenOk, Ahead, MergedTable, Accepted, WrittenOk, ChangedNames, News, DiskOk;
    var t, q := MergedTable(p.table, r), Receives(p, r, Saved);
    MergedTableOk(ws, p, r);
    NewsIsNew(ws, p, r);
    KnownOnDisk(ws, q);
    AheadSelf(t);
    SeenSame(p.(table := t, seen := p.seen + Accepted(r)), q);
  }

  lemma LandedOk(ws: set<Write>, p: Peer, r: Table)
    requires PeerOk(ws, p) && Known(ws, r) && WrittenOk(ws)
    ensures PeerOk(ws, p.(disk := MergedTable(p.table, r)))
  {
    hide Known, OwnHeld, SeenOk, Ahead, MergedTable, WrittenOk, DiskOk;
    var q := p.(disk := MergedTable(p.table, r));
    MergedTableOk(ws, p, r);
    KnownOnDisk(ws, q);
    SeenSame(p, q);
  }

  lemma SeenSame(p: Peer, q: Peer)
    requires p.table == q.table && p.seen == q.seen
    ensures SeenOk(p) <==> SeenOk(q)
  {
  }

  lemma KnownOnDisk(ws: set<Write>, p: Peer)
    requires Known(ws, p.disk)
    ensures DiskOk(ws, p)
  {
  }

  lemma AheadSelf(t: Table)
    ensures Ahead(t, t)
  {
    forall n | n in t ensures Compare(t[n], t[n]) <= 0 { CompareSwaps(t[n], t[n]); }
  }

  // ---- A node writes ----

  lemma HistoryAfterOk(ws: set<Write>, n: Name, prev: Option<Entry>, rest: History)
    requires prev.Some? ==> Write(n, Core(prev.value)) in ws
    requires forall v :: v in rest ==> exists w :: w in ws && Wrote(w, n, v)
    ensures HistoryOk(ws, n, HistoryAfter(prev, rest))
  {
    forall v | v in HistoryAfter(prev, rest) ensures exists w :: w in ws && Wrote(w, n, v) {
      if v !in rest {
        assert Wrote(Write(n, Core(prev.value)), n, v);
      }
    }
  }

  // The history a write of n gives its entry, and the target a revert brings back.
  lemma WritesHistory(ws: set<Write>, n: Name, prev: Entry)
    requires Write(n, Core(prev)) in ws && HistoryOk(ws, n, prev.history) && WrittenOk(ws)
    ensures ValidName(n) && HistoryOk(ws, n, HistoryAfter(Some(prev), prev.history))
    ensures prev.history != [] ==>
      HistoryOk(ws, n, HistoryAfter(Some(prev), prev.history[1..])) && prev.history[0].target != ""
  {
    hide HistoryAfter, Core;
    HistoryAfterOk(ws, n, Some(prev), prev.history);
    assert ValidName(Write(n, Core(prev)).name);
    if prev.history != [] {
      assert prev.history[0] in prev.history;
      var w :| w in ws && Wrote(w, n, prev.history[0]);
      HistoryAfterOk(ws, n, Some(prev), prev.history[1..]) by {
        assert forall v :: v in prev.history[1..] ==> v in prev.history;
      }
    }
  }

  // A local write is past every earlier write of this node, and every other node accepts it.
  lemma SubmittedOk(ws: set<Write>, p: Peer, n: Name, op: Op, ts: int)
    requires PeerOk(ws, p) && WrittenOk(ws) && Submitted(p.table, n, op, ts, p.self).Writing?
    ensures var e := Submitted(p.table, n, op, ts, p.self).entry;
      Unheard(ws, p.self, n, e) && (n in p.table ==> Compare(p.table[n], e) < 0)
  {
    hide Compare, HistoryAfter, HistoryOk, DiskOk, Ahead, SeenOk, WrittenOk, ValidName, Live;
    WriteBeats(p.table, n, op, ts, p.self);
    if n in p.table {
      WritesHistory(ws, n, p.table[n]);
    } else {
      HistoryAfterOk(ws, n, None, []);
    }
  }

  // What a node writes or takes up from its disk joins the writes without a clash.
  lemma JoinsWritten(ws: set<Write>, self: string, d: Table)
    requires WrittenOk(ws) && OwnHeld(ws, self, d)
    requires forall n :: n in d ==> Write(n, Core(d[n])) in ws || Unheard(ws, self, n, d[n])
    ensures WrittenOk(ws + Cores(d)) && OwnHeld(ws + Cores(d), self, d)
    ensures forall w :: w in ws + Cores(d) && w.entry.writer != self ==> w in ws
  {
    hide ValidName, AcceptRemote, HistoryOk;
    var all := ws + Cores(d);
    forall w | w in all && w !in ws
      ensures w.name in d && w == Write(w.name, Core(d[w.name])) && Unheard(ws, self, w.name, d[w.name])
      ensures w.entry.writer == self && w.entry.ver == d[w.name].ver
      ensures w.entry.history == [] && ValidName(w.name) && AcceptRemote(w.entry)
    {
      AcceptCore(d[w.name]);
    }
  }

  lemma AcceptCore(e: Entry)
    ensures AcceptRemote(Core(e)) == AcceptRemote(e)
  {
  }

  lemma RestartsOk(ws: set<Write>, p: Peer)
    requires PeerOk(ws, p) && WrittenOk(ws)
    ensures var all := ws + Cores(p.disk);
      WrittenOk(all) && PeerOk(all, Restarts(p)) && forall w :: w in all && w.entry.writer != p.self ==> w in ws
  {
    hide ValidName, AcceptRemote, HistoryOk, WrittenOk, Compare, OwnHeld;
    JoinsWritten(ws, p.self, p.disk);
    var all := ws + Cores(p.disk);
    forall n | n in p.disk ensures Write(n, Core(p.disk[n])) in all && HistoryOk(all, n, p.disk[n].history) {
      HistoryGrows(ws, all, n, p.disk[n].history);
    }
    AheadSelf(p.disk);
    forall w | w in p.seen + Cores(p.disk) ensures w.name in p.disk && Compare(w.entry, p.disk[w.name]) <= 0 {
      if w in p.seen {
        CompareTransitive(w.entry, p.table[w.name], p.disk[w.name]);
      } else {
        CompareCore(p.disk[w.name], p.disk[w.name]);
        CompareSwaps(p.disk[w.name], p.disk[w.name]);
      }
    }
  }

  // A write that is on the writer's disk and not yet heard of leaves the node as it should be.
  lemma LandsOk(ws: set<Write>, p: Peer, n: Name, e: Entry)
    requires PeerOk(ws, p) && Unheard(ws, p.self, n, e) && (n in p.table ==> Compare(p.table[n], e) < 0)
    ensures PeerOk(ws, p.(disk := p.table[n := e]))
  {
    hide ValidName, AcceptRemote, HistoryOk, Compare;
    var d := p.table[n := e];
    forall k | k in p.table ensures Compare(p.table[k], d[k]) <= 0 {
      if k != n { CompareSwaps(p.table[k], p.table[k]); }
    }
  }

  // A saved write is one that lands and is taken up at once.
  lemma SubmitsOk(ws: set<Write>, p: Peer, n: Name, e: Entry, fate: Fate)
    requires PeerOk(ws, p) && WrittenOk(ws) && Unheard(ws, p.self, n, e) && (n in p.table ==> Compare(p.table[n], e) < 0)
    ensures var all := if fate.Saved? then ws + {Write(n, Core(e))} else ws;
      && WrittenOk(all) && PeerOk(all, Submits(p, n, e, fate))
      && forall w :: w in all && w.entry.writer != p.self ==> w in ws
  {
    hide WrittenOk, PeerOk, Unheard, Compare;
    LandsOk(ws, p, n, e);
    if fate.Saved? {
      var q := p.(disk := p.table[n := e]);
      RestartsOk(ws, q);
      CoresOfOne(ws, p, n, e);
    }
  }

  lemma CoresOfOne(ws: set<Write>, p: Peer, n: Name, e: Entry)
    requires PeerOk(ws, p)
    ensures ws + Cores(p.table[n := e]) == ws + {Write(n, Core(e))}
    ensures p.seen + Cores(p.table[n := e]) == p.seen + {Write(n, Core(e))}
  {
    hide ValidName, AcceptRemote, HistoryOk, Compare;
    var t, w := p.table[n := e], Write(n, Core(e));
    assert t[n] == e && w in Cores(t);
    assert forall v :: v in Cores(t) ==> v == w || v in p.seen;
  }

  // ---- Every run ----

  lemma OthersOk(m: Mesh, ws: set<Write>, i: nat, p: Peer)
    requires MeshOk(m) && i < |m.peers| && p.self == m.peers[i].self && WrittenOk(ws) && m.written <= ws
    requires PeerOk(ws, p) && forall w :: w in ws && w.entry.writer != p.self ==> w in m.written
    ensures MeshOk(m.(peers := m.peers[i := p], written := ws))
  {
    hide PeerOk, Known, WrittenOk;
    forall j | 0 <= j < |m.peers| && j != i ensures PeerOk(ws, m.peers[j]) {
      assert m.peers[j].self != p.self;
      PeerGrows(m.written, ws, m.peers[j]);
    }
    forall t | t in m.pushes ensures Known(ws, t) { KnownGrows(m.written, ws, t); }
  }

  lemma CastKnown(ws: set<Write>, w: Write)
    requires w in ws && WrittenOk(ws)
    ensures Known(ws, map[w.name := w.entry])
  {
    assert Core(w.entry) == w.entry;
  }

  lemma ReceiveOk(m: Mesh, i: nat, r: Table, fate: Fate)
    requires MeshOk(m) && i < |m.peers| && Known(m.written, r)
    ensures MeshOk(m.(peers := m.peers[i := Receives(m.peers[i], r, fate)], casts := m.casts + Gossiped(m.peers[i], r, fate)))
  {
    hide PeerOk, Known, WrittenOk, Gossiped;
    ReceivesOk(m.written, m.peers[i], r, fate);
    OthersOk(m, m.written, i, Receives(m.peers[i], r, fate));
  }

  lemma NextOk(m: Mesh, e: Event)
    requires MeshOk(m) && Enabled(m, e)
    ensures MeshOk(Next(m, e))
  {
    hide PeerOk, Known, WrittenOk, Receives, Gossiped, Submits, Submitted, Restarts, Cores, Unheard, Compare;
    var p := m.peers[e.at];
    match e
    case Submit(i, n, op, ts, fate) =>
      var a := Submitted(p.table, n, op, ts, p.self);
      if a.Writing? {
        SubmittedOk(m.written, p, n, op, ts);
        SubmitsOk(m.written, p, n, a.entry, fate);
        SelfKept(p, n, a.entry, fate);
        OthersOk(m, if fate.Saved? then m.written + {Write(n, Core(a.entry))} else m.written, i, Submits(p, n, a.entry, fate));
      }
    case Cast(i, w, fate) =>
      CastKnown(m.written, w);
      ReceiveOk(m, i, map[w.name := w.entry], fate);
    case Push(i, r, fate) =>
      ReceiveOk(m, i, r, fate);
    case Offer(i) =>
      assert Known(m.written, p.table) by { PeerKnown(m.written, p); }
    case Restart(i) =>
      RestartsOk(m.written, p);
      SelfKept(p, "", Entry("", [], 0, 0, "", false, []), Lost);
      OthersOk(m, m.written + Cores(p.disk), i, Restarts(p));
  }

  lemma SelfKept(p: Peer, n: Name, e: Entry, fate: Fate)
    ensures Submits(p, n, e, fate).self == p.self && Restarts(p).self == p.self
  {
  }

  lemma PeerKnown(ws: set<Write>, p: Peer)
    requires PeerOk(ws, p)
    ensures Known(ws, p.table) && SeenOk(p) && p.seen <= ws && p.sent <= ws && p.resent == |p.sent|
  {
  }

  function Start(names: seq<string>): (m: Mesh)
    ensures |m.peers| == |names|
  {
    Mesh(seq(|names|, i requires 0 <= i < |names| => Peer(names[i], map[], map[], {}, {}, 0)), {}, {}, {})
  }

  // A run: events one after another, each enabled when its turn comes.
  predicate Allowed(m: Mesh, es: seq<Event>)
    decreases |es|
  {
    es == [] || (Enabled(m, es[0]) && Allowed(Next(m, es[0]), es[1..]))
  }

  function After(m: Mesh, es: seq<Event>): (m': Mesh)
    requires Allowed(m, es)
    ensures |m'.peers| == |m.peers|
    decreases |es|
  {
    if es == [] then m else After(Next(m, es[0]), es[1..])
  }

  lemma {:induction false} AfterOk(m: Mesh, es: seq<Event>)
    requires MeshOk(m) && Allowed(m, es)
    ensures MeshOk(After(m, es))
    decreases |es|
  {
    hide MeshOk, Enabled;
    if es != [] {
      NextOk(m, es[0]);
      AfterOk(Next(m, es[0]), es[1..]);
    }
  }

  predicate NamesApart(names: seq<string>) {
    forall i, j :: 0 <= i < j < |names| ==> names[i] != names[j]
  }

  // The invariant holds in every state any run of nodes with different names reaches.
  lemma EveryRun(names: seq<string>, es: seq<Event>)
    requires NamesApart(names) && Allowed(Start(names), es)
    ensures MeshOk(After(Start(names), es))
  {
    StartOk(names);
    AfterOk(Start(names), es);
  }

  lemma StartOk(names: seq<string>)
    requires NamesApart(names)
    ensures MeshOk(Start(names))
  {
  }

  // ---- The theorems ----

  function SeenOf(p: Peer, n: Name): set<Write> {
    set w | w in p.seen && w.name == n
  }

  function Current(p: Peer, n: Name): Option<Entry> {
    if n in p.table then Some(Core(p.table[n])) else None
  }

  // A node's current write of an alias wins over all it has written or accepted, and no other write
  // it has seen ties with it.
  lemma CurrentWins(m: Mesh, i: nat, n: Name)
    requires MeshOk(m) && i < |m.peers|
    ensures var p := m.peers[i];
      && (n in p.table <==> SeenOf(p, n) != {})
      && (n in p.table ==> Write(n, Core(p.table[n])) in SeenOf(p, n))
      && (forall w :: w in SeenOf(p, n) ==>
            && n in p.table && Compare(w.entry, p.table[n]) <= 0
            && (Compare(w.entry, p.table[n]) == 0 ==> w.entry == Core(p.table[n])))
  {
    hide Compare, Known;
    var p := m.peers[i];
    PeerKnown(m.written, p);
    forall w | w in SeenOf(p, n) ensures n in p.table && Compare(w.entry, p.table[n]) <= 0
      ensures Compare(w.entry, p.table[n]) == 0 ==> w.entry == Core(p.table[n])
    {
      CompareSwaps(w.entry, p.table[n]);
      var c := Write(n, Core(p.table[n]));
      assert c in p.seen && (Compare(w.entry, p.table[n]) == 0 ==> SameWriting(w, c));
    }
    if n in p.table {
      assert Write(n, Core(p.table[n])) in SeenOf(p, n);
    }
  }

  // In every run a node's current write of an alias has the highest version of all it has written or
  // accepted, among those the latest time, and among those the largest name; and it has seen no other
  // with the three.
  lemma CurrentIsMax(m: Mesh, i: nat, n: Name)
    requires MeshOk(m) && i < |m.peers|
    ensures var p := m.peers[i];
      && (n in p.table <==> SeenOf(p, n) != {})
      && (n in p.table ==> Write(n, Core(p.table[n])) in SeenOf(p, n))
      && (forall w :: w in SeenOf(p, n) ==> n in p.table && OlderOrSame(w.entry, p.table[n]))
  {
    hide Compare, Core, MeshOk, OlderOrSame;
    CurrentWins(m, i, n);
    var p := m.peers[i];
    forall w | w in SeenOf(p, n) ensures n in p.table && OlderOrSame(w.entry, p.table[n]) {
      IsOlder(w.entry, p.table[n]);
    }
  }

  predicate OlderOrSame(v: Entry, e: Entry) {
    && (v.ver < e.ver || (v.ver == e.ver && (v.ts < e.ts || (v.ts == e.ts && (v.writer == e.writer || Less(v.writer, e.writer))))))
    && (v.ver == e.ver && v.ts == e.ts && v.writer == e.writer ==> v == Core(e))
  }

  lemma IsOlder(v: Entry, e: Entry)
    requires Compare(v, e) <= 0 && (Compare(v, e) == 0 ==> v == Core(e))
    ensures OlderOrSame(v, e)
  {
    hide Compare, Core;
    CompareIs(v, e);
  }

  // Nodes that have seen the same writes of an alias hold the same one, whatever the order they
  // came in and however many were lost or came twice.
  lemma Converges(m: Mesh, i: nat, j: nat, n: Name)
    requires MeshOk(m) && i < |m.peers| && j < |m.peers| && SeenOf(m.peers[i], n) == SeenOf(m.peers[j], n)
    ensures Current(m.peers[i], n) == Current(m.peers[j], n)
  {
    hide Compare, MeshOk;
    CurrentWins(m, i, n);
    CurrentWins(m, j, n);
    if n in m.peers[i].table {
      var a, b := m.peers[i].table[n], m.peers[j].table[n];
      var wa, wb := Write(n, Core(a)), Write(n, Core(b));
      assert wa in SeenOf(m.peers[j], n) && wb in SeenOf(m.peers[i], n);
      CompareCore(a, b);
      CompareCore(b, a);
      CompareSwaps(a, b);
    }
  }

  // Every (name, version, node) is one write.
  lemma OneWrite(m: Mesh, v: Write, w: Write)
    requires MeshOk(m) && v in m.written && w in m.written && SameWriting(v, w)
    ensures v == w
  {
  }

  // A node gossips a write again at most once, so merges cause at most one broadcast for each
  // node and write.
  function Resent(ps: seq<Peer>): nat {
    if ps == [] then 0 else Resent(ps[..|ps| - 1]) + ps[|ps| - 1].resent
  }

  lemma {:induction false} ResentBound(ps: seq<Peer>, ws: set<Write>)
    requires forall i :: 0 <= i < |ps| ==> ps[i].resent == |ps[i].sent| && ps[i].sent <= ws
    ensures Resent(ps) <= |ps| * |ws|
  {
    if ps != [] {
      var init, last := ps[..|ps| - 1], ps[|ps| - 1];
      ResentBound(init, ws);
      SubsetSize(last.sent, ws);
      assert |ps| * |ws| == |init| * |ws| + |ws|;
    }
  }

  lemma SubsetSize<T>(a: set<T>, b: set<T>)
    requires a <= b
    ensures |a| <= |b|
  {
    assert b == a + (b - a);
  }

  lemma GossipEnds(m: Mesh)
    requires MeshOk(m)
    ensures Resent(m.peers) <= |m.peers| * |m.written|
  {
    hide PeerOk;
    forall i | 0 <= i < |m.peers| ensures m.peers[i].resent == |m.peers[i].sent| && m.peers[i].sent <= m.written {
      PeerKnown(m.written, m.peers[i]);
    }
    ResentBound(m.peers, m.written);
  }

  // Each broadcast a merge causes strictly raises the node's version of that alias.
  lemma NewsRaises(m: Mesh, i: nat, r: Table, w: Write)
    requires MeshOk(m) && i < |m.peers| && Known(m.written, r) && w in News(m.peers[i].table, r)
    ensures w.name in m.peers[i].table ==> Compare(m.peers[i].table[w.name], w.entry) < 0
    ensures w !in m.peers[i].sent && w in m.written
  {
    hide Merged, HistoryOk, MergedTable, ValidName, AcceptRemote, Accepted, ChangedNames;
    var p, n := m.peers[i], w.name;
    assert PeerOk(m.written, p);
    NewsIsNew(m.written, p, r);
    MergedKnown(m.written, p.table, r, n);
    if n in p.table {
      var e := MergedTable(p.table, r)[n];
      CompareSwaps(p.table[n], e);
      CompareCore(e, p.table[n]);
      CompareSwaps(p.table[n], w.entry);
    }
  }

  // ---- Histories over runs ----

  predicate TimesApart(ws: set<Write>) {
    forall v, w :: v in ws && w in ws && v.name == w.name && v.entry.ts == w.entry.ts && v.entry.writer == w.entry.writer
      ==> v == w
  }

  lemma KnownVersions(ws: set<Write>, n: Name, e: Entry, v: Version)
    requires Write(n, Core(e)) in ws && HistoryOk(ws, n, e.history) && v in Versions(e)
    ensures exists w :: w in ws && Wrote(w, n, v)
  {
    OneVersions(e);
    MergedVersion(ws, n, Some(e), v);
  }

  // In every run where no node writes an alias twice in one millisecond, two push/pull exchanges
  // between two nodes, with no write in between, leave them with one table, histories included.
  lemma ExchangesSettle(m: Mesh, i: nat, j: nat)
    requires MeshOk(m) && TimesApart(m.written) && i < |m.peers| && j < |m.peers|
    ensures var a, b := m.peers[i].table, m.peers[j].table;
      var a1, b1 := MergedTable(a, b), MergedTable(b, a);
      MergedTable(a1, b1) == MergedTable(b1, a1)
  {
    hide MergedTable, PeerOk, Versions, HistoryOk, Compare;
    var ws, a, b := m.written, m.peers[i].table, m.peers[j].table;
    PeerKnown(ws, m.peers[i]);
    PeerKnown(ws, m.peers[j]);
    KnownTable(ws, a);
    KnownTable(ws, b);
    forall n | n in a && n in b ensures Settled(a[n], b[n]) {
      forall v, w | v in Versions(a[n]) + Versions(b[n]) && w in Versions(a[n]) + Versions(b[n]) && SameKey(v, w)
        ensures v == w
      {
        if v in Versions(a[n]) { KnownVersions(ws, n, a[n], v); } else { KnownVersions(ws, n, b[n], v); }
        if w in Versions(a[n]) { KnownVersions(ws, n, a[n], w); } else { KnownVersions(ws, n, b[n], w); }
        var x :| x in ws && Wrote(x, n, v);
        var y :| y in ws && Wrote(y, n, w);
      }
      CompareSwaps(a[n], b[n]);
      assert Compare(a[n], b[n]) == 0 ==> SameWriting(Write(n, Core(a[n])), Write(n, Core(b[n])));
    }
    TwoExchangesSettle(a, b);
  }

  lemma KnownTable(ws: set<Write>, t: Table)
    requires Known(ws, t) && WrittenOk(ws)
    ensures TableOk(t)
  {
    forall n | n in t ensures ValidName(n) && AcceptRemote(t[n]) && |t[n].history| <= MAX_HISTORY {
      assert ValidName(Write(n, Core(t[n])).name);
      AcceptCore(t[n]);
    }
  }

  // ---- The theorems, of runs ----

  lemma RunConverges(names: seq<string>, es: seq<Event>, i: nat, j: nat, n: Name)
    requires NamesApart(names) && Allowed(Start(names), es) && i < |names| && j < |names|
    requires var m := After(Start(names), es); SeenOf(m.peers[i], n) == SeenOf(m.peers[j], n)
    ensures var m := After(Start(names), es); Current(m.peers[i], n) == Current(m.peers[j], n)
  {
    EveryRun(names, es);
    Converges(After(Start(names), es), i, j, n);
  }

  lemma RunExchangesSettle(names: seq<string>, es: seq<Event>, i: nat, j: nat)
    requires NamesApart(names) && Allowed(Start(names), es) && i < |names| && j < |names|
    requires TimesApart(After(Start(names), es).written)
    ensures var m := After(Start(names), es);
      var a, b := m.peers[i].table, m.peers[j].table;
      var a1, b1 := MergedTable(a, b), MergedTable(b, a);
      MergedTable(a1, b1) == MergedTable(b1, a1)
  {
    hide MergedTable;
    EveryRun(names, es);
    ExchangesSettle(After(Start(names), es), i, j);
  }

  function WriteCount(es: seq<Event>): nat {
    if es == [] then 0 else (if es[0].Submit? then 1 else 0) + WriteCount(es[1..])
  }

  // All writes, and all that is on a disk, are among xs.
  predicate Within(m: Mesh, xs: set<Write>) {
    m.written <= xs && forall i :: 0 <= i < |m.peers| ==> Cores(m.peers[i].disk) <= xs
  }

  function IssuedBy(m: Mesh, e: Event): (xs: set<Write>)
    requires Enabled(m, e)
    ensures |xs| <= if e.Submit? then 1 else 0
  {
    if !e.Submit? then {}
    else
      var p := m.peers[e.at];
      var a := Submitted(p.table, e.name, e.op, e.ts, p.self);
      if a.Refused? then {} else {Write(e.name, Core(a.entry))}
  }

  lemma ReceiveWithin(ws: set<Write>, p: Peer, r: Table, fate: Fate)
    requires PeerOk(ws, p) && Known(ws, r) && WrittenOk(ws)
    ensures Cores(Receives(p, r, fate).disk) <= ws + Cores(p.disk)
  {
    hide MergedTable, ChangedNames, OwnHeld, DiskOk, Ahead, SeenOk, HistoryOk, WrittenOk, Accepted, News;
    MergedTableOk(ws, p, r);
  }

  lemma NextWithin(m: Mesh, e: Event, xs: set<Write>)
    requires MeshOk(m) && Enabled(m, e) && Within(m, xs)
    ensures Within(Next(m, e), xs + IssuedBy(m, e))
  {
    hide PeerOk, Known, WrittenOk, Receives, Gossiped, Cores, Compare, Submitted;
    var p, ys := m.peers[e.at], xs + IssuedBy(m, e);
    match e
    case Submit(i, n, op, ts, fate) =>
      var a := Submitted(p.table, n, op, ts, p.self);
      if a.Writing? {
        CoresOfOne(m.written, p, n, a.entry);
        assert Cores(Submits(p, n, a.entry, fate).disk) <= ys;
      }
    case Cast(i, w, fate) =>
      CastKnown(m.written, w);
      ReceiveWithin(m.written, p, map[w.name := w.entry], fate);
      assert Cores(Receives(p, map[w.name := w.entry], fate).disk) <= ys;
    case Push(i, r, fate) =>
      ReceiveWithin(m.written, p, r, fate);
      assert Cores(Receives(p, r, fate).disk) <= ys;
    case Offer(i) =>
    case Restart(i) =>
      assert Cores(p.disk) <= ys;
  }

  lemma {:induction false} WrittenCount(m: Mesh, es: seq<Event>, xs: set<Write>)
    requires MeshOk(m) && Allowed(m, es) && Within(m, xs)
    ensures |After(m, es).written| <= |xs| + WriteCount(es)
    decreases |es|
  {
    hide MeshOk, Enabled, Next, Within, IssuedBy;
    if es == [] {
      SubsetSize(m.written, xs) by { AreWithin(m, xs); }
    } else {
      NextOk(m, es[0]);
      NextWithin(m, es[0], xs);
      WrittenCount(Next(m, es[0]), es[1..], xs + IssuedBy(m, es[0]));
    }
  }

  lemma AreWithin(m: Mesh, xs: set<Write>)
    requires Within(m, xs)
    ensures m.written <= xs
  {
  }

  // The flood ends: in every run of N nodes with W writes, merges cause at most N * W broadcasts.
  lemma RunGossipEnds(names: seq<string>, es: seq<Event>)
    requires NamesApart(names) && Allowed(Start(names), es)
    ensures Resent(After(Start(names), es).peers) <= |names| * WriteCount(es)
  {
    hide After, Allowed, Resent, MeshOk;
    var m := After(Start(names), es);
    EveryRun(names, es);
    GossipEnds(m);
    StartOk(names);
    WrittenCount(Start(names), es, {});
    MoreWrites(|m.peers|, |m.written|, WriteCount(es));
  }

  lemma MoreWrites(n: nat, v: nat, w: nat)
    requires v <= w
    ensures n * v <= n * w
  {
  }
}

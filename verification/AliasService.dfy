/** A node on the mesh: it gossips its own writes, merges what arrives, and gossips again what was news. */
module AliasService {
  import opened Options
  import opened AliasMerge
  import opened AliasStore

  // A write of an alias, as a broadcast carries it: without history.
  datatype Write = Write(name: Name, entry: Entry)

  // How a save went: the file replaced; not replaced; replaced, and failed after that.
  datatype Fate = Saved | Lost | Landed

  function TableAfter(t: Table, attempt: Table, fate: Fate): Table {
    if fate.Saved? then attempt else t
  }

  function DiskAfter(d: Table, attempt: Table, fate: Fate): Table {
    if fate.Lost? then d else attempt
  }

  // A local write through the service: a target is required.
  function Submitted(t: Table, n: Name, op: Op, ts: int, self: string): Attempt {
    if op.Setting? && op.target == "" then Refused(NoTarget) else Attempted(t, n, op, ts, self)
  }

  // The current version of n differs between t and t'.
  predicate IsNews(t: Table, t': Table, n: Name) {
    n in t' && !(n in t && t'[n].ver == t[n].ver && t'[n].ts == t[n].ts && t'[n].writer == t[n].writer)
  }

  // What a node gossips after merging r into t.
  function News(t: Table, r: Table): set<Write> {
    set n | n in ChangedNames(t, r) && IsNews(t, MergedTable(t, r), n) :: Write(n, Core(MergedTable(t, r)[n]))
  }

  class Service {
    const store: Store
    var queue: multiset<Write>

    constructor (store: Store)
      ensures this.store == store && queue == multiset{}
    {
      this.store, queue := store, multiset{};
    }

    method Publish(name: Name, e: Entry)
      modifies this`queue
      ensures queue == old(queue) + multiset{Write(name, Core(e))}
    {
      queue := queue + multiset{Write(name, Core(e))};
    }

    // A write by this node's operator: validated, saved, then gossiped.
    method Submit(name: Name, op: Op, now: int) returns (w: Written, ghost fate: Fate)
      modifies this`queue, store`table, store`disk
      ensures Submitted(old(store.table), name, op, now, store.self).Refused? ==>
        w.Failed? && store.table == old(store.table) && store.disk == old(store.disk) && queue == old(queue)
      ensures var t, a := old(store.table), Submitted(old(store.table), name, op, now, store.self);
        a.Writing? ==>
          && store.table == TableAfter(t, t[name := a.entry], fate)
          && store.disk == DiskAfter(old(store.disk), t[name := a.entry], fate)
          && queue == old(queue) + (if fate.Saved? then multiset{Write(name, Core(a.entry))} else multiset{})
          && (fate.Saved? <==> w == Done(a.entry))
    {
      ghost var t, d := store.table, store.disk;
      match op {
        case Setting(target, fallbacks) =>
          if target == "" {
            return Failed(NoTarget), Lost;
          }
          w := store.Set(name, target, fallbacks, now);
        case Deleting =>
          w := store.Delete(name, now);
        case Reverting =>
          w := store.Revert(name, now);
      }
      fate := if w.Done? then Saved else if store.disk == d then Lost else Landed;
      if w.Done? {
        Publish(name, w.entry);
      }
    }

    method Republish(name: Name, before: Option<Entry>)
      modifies this`queue
      ensures queue == old(queue) + if IsNews(if before.Some? then map[name := before.value] else map[], store.table, name)
        then multiset{Write(name, Core(store.table[name]))} else multiset{}
    {
      var cur := Find(store.table, name);
      if cur.None? {
        return;
      }
      if before.Some? {
        if cur.value.ver == before.value.ver && cur.value.ts == before.value.ts && cur.value.writer == before.value.writer {
          return;
        }
      }
      Publish(name, cur.value);
    }

    // One broadcast: what the table, the file and the queue become, whatever became of the save.
    method NotifyMsg(name: Name, entry: Entry) returns (ghost fate: Fate)
      modifies this`queue, store`table, store`disk
      ensures var t, r := old(store.table), map[name := entry];
        && (ChangedNames(t, r) == {} ==> store.table == t && store.disk == old(store.disk) && queue == old(queue))
        && (ChangedNames(t, r) != {} ==>
              && store.table == TableAfter(t, MergedTable(t, r), fate)
              && store.disk == DiskAfter(old(store.disk), MergedTable(t, r), fate)
              && queue == old(queue) + if fate.Saved? then multiset(News(t, r)) else multiset{})
    {
      hide MergedTable, ChangedNames, Merged;
      var before := Find(store.table, name);
      ghost var t, d, r := store.table, store.disk, map[name := entry];
      var reply, _ := store.Merge(name, entry);
      if reply.Changed? {
        Republish(name, before);
        OneNews(t, name, entry);
        return Saved;
      }
      fate := if store.disk == d then Lost else Landed;
    }

    // A pushed table.
    method MergeRemoteState(version: int, remote: Table) returns (ghost fate: Fate)
      modifies this`queue, store`table, store`disk
      ensures var t := old(store.table);
        && (version != TABLE_VERSION || ChangedNames(t, remote) == {} ==>
              store.table == t && store.disk == old(store.disk) && queue == old(queue))
        && (version == TABLE_VERSION && ChangedNames(t, remote) != {} ==>
              && store.table == TableAfter(t, MergedTable(t, remote), fate)
              && store.disk == DiskAfter(old(store.disk), MergedTable(t, remote), fate)
              && queue == old(queue) + if fate.Saved? then multiset(News(t, remote)) else multiset{})
    {
      hide MergedTable, ChangedNames, Merged;
      ghost var t, d := store.table, store.disk;
      var before := store.table;
      var reply, changed, _ := store.MergeTable(version, remote);
      if !reply.Changed? {
        return if store.disk == d then Lost else Landed;
      }
      var left := changed;
      while left != {}
        invariant left <= changed == ChangedNames(t, remote)
        invariant store.table == MergedTable(t, remote) && store.disk == store.table
        invariant queue == old(queue) + multiset(NewsOf(t, store.table, changed - left))
        decreases left
      {
        var name :| name in left;
        NewsPush(t, store.table, changed - left, name);
        assert changed - (left - {name}) == changed - left + {name};
        left := left - {name};
        Republish(name, Find(before, name));
      }
      assert changed - {} == changed;
      assert NewsOf(t, store.table, changed) == News(t, remote);
      fate := Saved;
    }
  }

  function NewsOf(t: Table, t': Table, ns: set<Name>): set<Write> {
    set n | n in ns && IsNews(t, t', n) :: Write(n, Core(t'[n]))
  }

  lemma NewsPush(t: Table, t': Table, ns: set<Name>, n: Name)
    requires n !in ns
    ensures multiset(NewsOf(t, t', ns + {n})) == multiset(NewsOf(t, t', ns)) +
      if IsNews(if n in t then map[n := t[n]] else map[], t', n) then multiset{Write(n, Core(t'[n]))} else multiset{}
  {
    var one := if n in t then map[n := t[n]] else map[];
    assert IsNews(one, t', n) <==> IsNews(t, t', n);
    if IsNews(t, t', n) {
      assert NewsOf(t, t', ns + {n}) == NewsOf(t, t', ns) + {Write(n, Core(t'[n]))};
      assert Write(n, Core(t'[n])) !in NewsOf(t, t', ns);
    } else {
      assert NewsOf(t, t', ns + {n}) == NewsOf(t, t', ns);
    }
  }

  lemma OneNews(t: Table, n: Name, e: Entry)
    requires ChangedNames(t, map[n := e]) != {}
    ensures multiset(News(t, map[n := e])) ==
      if IsNews(if n in t then map[n := t[n]] else map[], MergedTable(t, map[n := e]), n)
      then multiset{Write(n, Core(MergedTable(t, map[n := e])[n]))} else multiset{}
  {
    hide MergedTable, Merged;
    var t' := MergedTable(t, map[n := e]);
    assert ChangedNames(t, map[n := e]) == {n};
    NewsPush(t, t', {}, n);
    assert {} + {n} == {n};
    assert News(t, map[n := e]) == NewsOf(t, t', {n});
  }

  // What is gossiped again after a merge is exactly each write that came and beat the one held, or was
  // the first of its name.
  lemma NewsExactly(t: Table, r: Table, w: Write)
    ensures w in News(t, r) <==>
      && w.name in r && ValidName(w.name) && w.entry == Core(r[w.name])
      && (r[w.name].target != "" || r[w.name].deleted) && r[w.name].ver <= 0x20_0000_0000_0000
      && (w.name !in t || Beats(r[w.name], t[w.name]))
  {
    hide Merged, ValidName, MergedTable;
    var n := w.name;
    MergedTableAt(t, r, n);
    if n in r && ValidName(n) {
      if (r[n].target != "" || r[n].deleted) && r[n].ver <= 0x20_0000_0000_0000 {
        MergedIsMax(Find(t, n), r[n]);
        if n in t && Beats(r[n], t[n]) { BeatsApart(r[n], t[n]); }
      } else {
        RemoteRefused(Find(t, n), r[n]);
      }
    }
  }

  lemma BeatsApart(a: Entry, b: Entry)
    requires Beats(a, b)
    ensures !(a.ver == b.ver && a.ts == b.ts && a.writer == b.writer)
  {
    hide Compare;
    CompareIs(a, b);
  }
}

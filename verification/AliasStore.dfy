/** A node's alias table in memory and on disk: every change is saved before it takes effect, or undone. */
module AliasStore {
  import opened Options
  import opened AliasMerge

  const TABLE_VERSION: int := 1

  datatype Undo = Undo(name: Name, prev: Option<Entry>)

  datatype Written = Done(entry: Entry) | Failed(error: WriteError)

  datatype Reply = Unchanged | Changed | Unsaved | WrongVersion

  function Restored(t: Table, u: Undo): Table {
    if u.prev.Some? then t[u.name := u.prev.value] else t - {u.name}
  }

  function RolledBack(t: Table, undos: seq<Undo>): Table
    decreases |undos|
  {
    if undos == [] then t else RolledBack(Restored(t, undos[|undos| - 1]), undos[..|undos| - 1])
  }

  lemma RolledBackPush(t: Table, n: Name, e: Entry, undos: seq<Undo>)
    ensures RolledBack(t[n := e], undos + [Undo(n, Find(t, n))]) == RolledBack(t, undos)
  {
    var us := undos + [Undo(n, Find(t, n))];
    assert us[|us| - 1] == Undo(n, Find(t, n)) && us[..|us| - 1] == undos;
    assert Restored(t[n := e], Undo(n, Find(t, n))) == t;
  }

  class Store {
    const self: string
    var table: Table
    var disk: Table

    constructor (self: string)
      ensures this.self == self && table == disk == map[]
    {
      this.self, table, disk := self, map[], map[];
    }

    // The file is replaced whole or not at all; a failure can come after it was replaced.
    method Persist() returns (ok: bool)
      modifies this`disk
      ensures ok ==> disk == table
      ensures disk == table || disk == old(disk)
    {
      ok := *;
      var replaced: bool := *;
      if ok || replaced { disk := table; }
    }

    method Restore(u: Undo)
      modifies this`table
      ensures table == Restored(old(table), u)
    {
      if u.prev.Some? { table := table[u.name := u.prev.value]; } else { table := table - {u.name}; }
    }

    method MergeLocked(name: Name, remote: Entry) returns (changed: bool, conflict: Option<Conflict>, u: Undo)
      modifies this`table
      ensures var m := Merged(Find(old(table), name), remote);
        && changed == m.changed && conflict == m.conflict && u == Undo(name, Find(old(table), name))
        && (m.changed ==> m.entry.Some? && table == old(table)[name := m.entry.value])
        && (!m.changed ==> table == old(table))
    {
      u := Undo(name, Find(table, name));
      var m := Merged(Find(table, name), remote);
      changed, conflict := m.changed, m.conflict;
      if AcceptRemote(remote) { MergedOrdered(Find(table, name), remote); }
      if changed { table := table[name := m.entry.value]; }
    }

    // Merges one entry. Saved, the table and the file are the merged table; not saved, the table is
    // exactly what it was.
    method Merge(name: Name, remote: Entry) returns (r: Reply, conflict: Option<Conflict>)
      modifies this`table, this`disk
      ensures r.Changed? || r.Unchanged? || r.Unsaved?
      ensures r.Unchanged? <==> ChangedNames(old(table), map[name := remote]) == {}
      ensures !r.Changed? ==> table == old(table)
      ensures r.Changed? ==> table == MergedTable(old(table), map[name := remote]) && disk == table
      ensures r.Unchanged? ==> disk == old(disk)
      ensures r.Unsaved? ==> disk == old(disk) || disk == MergedTable(old(table), map[name := remote])
      ensures !r.Unsaved? ==> conflict == MergedAt(old(table), map[name := remote], name).conflict
    {
      conflict := None;
      if !ValidName(name) {
        return Unchanged, None;
      }
      ghost var was, one := table, map[name := remote];
      var changed, c, u := MergeLocked(name, remote);
      assert ChangedNames(was, one) == if changed then {name} else {};
      if !changed {
        return Unchanged, c;
      }
      OneMerged(was, name, remote);
      var ok := Persist();
      if !ok {
        RolledBackPush(was, name, table[name], []);
        Restore(u);
        assert table == was;
        return Unsaved, None;
      }
      r, conflict := Changed, c;
    }

    // Merges every entry in memory, with the steps to undo it.
    method MergeEntries(remote: Table) returns (changed: set<Name>, conflicts: map<Name, Conflict>, undos: seq<Undo>)
      modifies this`table
      ensures table == MergedTable(old(table), remote) && changed == ChangedNames(old(table), remote)
      ensures conflicts == Conflicts(old(table), remote) && RolledBack(table, undos) == old(table)
    {
      hide *;
      ghost var was, done := table, map[];
      var left := set n | n in remote && ValidName(n);
      changed, conflicts, undos := {}, map[], [];
      NothingMerged(was);
      while left != {}
        invariant forall n :: n in left <==> n in remote && ValidName(n) && n !in done
        invariant forall n :: n in done ==> n in remote && done[n] == remote[n] && ValidName(n)
        invariant table == MergedTable(was, done) && changed == ChangedNames(was, done)
        invariant conflicts == Conflicts(was, done) && RolledBack(table, undos) == was
        decreases left
      {
        var name :| name in left;
        left := left - {name};
        ghost var t := table;
        var c, conflict, u := MergeLocked(name, remote[name]);
        MergeOneMore(was, done, name, remote[name]);
        done := done[name := remote[name]];
        if conflict.Some? { conflicts := conflicts[name := conflict.value]; }
        if c {
          RolledBackPush(t, name, table[name], undos);
          changed, undos := changed + {name}, undos + [u];
        }
      }
      MergedValid(was, done, remote);
    }

    method RollBack(undos: seq<Undo>)
      modifies this`table
      ensures table == RolledBack(old(table), undos)
    {
      var i := |undos|;
      assert undos[..i] == undos;
      while i > 0
        invariant 0 <= i <= |undos|
        invariant RolledBack(table, undos[..i]) == RolledBack(old(table), undos)
      {
        i := i - 1;
        assert undos[..i + 1][..i] == undos[..i];
        Restore(undos[i]);
      }
    }

    // Merges a whole table under one save; a failed save undoes every change.
    method MergeTable(version: int, remote: Table) returns (r: Reply, changed: set<Name>, conflicts: map<Name, Conflict>)
      modifies this`table, this`disk
      ensures r.WrongVersion? <==> version != TABLE_VERSION
      ensures version == TABLE_VERSION ==> (r.Unchanged? <==> ChangedNames(old(table), remote) == {})
      ensures !r.Changed? ==> table == old(table) && changed == {}
      ensures r.Changed? ==> table == MergedTable(old(table), remote) && disk == table
      ensures r.Changed? ==> changed == ChangedNames(old(table), remote)
      ensures r.Unchanged? || r.WrongVersion? ==> disk == old(disk)
      ensures r.Unsaved? ==> disk == old(disk) || disk == MergedTable(old(table), remote)
      ensures r.Changed? || r.Unchanged? ==> conflicts == Conflicts(old(table), remote)
    {
      hide *;
      if version != TABLE_VERSION {
        return WrongVersion, {}, map[];
      }
      var undos;
      changed, conflicts, undos := MergeEntries(remote);
      if changed == {} {
        NothingChanged(old(table), remote);
        return Unchanged, {}, conflicts;
      }
      var ok := Persist();
      if !ok {
        RollBack(undos);
        return Unsaved, {}, map[];
      }
      r := Changed;
    }

    method Commit(name: Name, e: Entry) returns (w: Written)
      modifies this`table, this`disk
      ensures w == Done(e) || w == Failed(NotSaved)
      ensures w.Done? ==> table == disk == old(table)[name := e]
      ensures w.Failed? ==> table == old(table) && (disk == old(disk) || disk == old(table)[name := e])
    {
      ghost var was := table;
      var u := Undo(name, Find(table, name));
      table := table[name := e];
      var ok := Persist();
      if !ok {
        RolledBackPush(was, name, e, []);
        Restore(u);
        assert table == was;
        return Failed(NotSaved);
      }
      w := Done(e);
    }

    method Set(name: Name, target: string, fallbacks: seq<string>, now: int) returns (w: Written)
      modifies this`table, this`disk
      ensures WriteOutcome(old(table), old(disk), name, SetAttempt(old(table), name, target, fallbacks, now, self), w, table, disk)
    {
      if !ValidName(name) {
        return Failed(BadName);
      }
      var prev := Find(table, name);
      if (prev.None? || prev.value.deleted) && Live(table) >= MAX_ALIASES {
        return Failed(TooMany);
      }
      var a := NextVersion(prev, now, self);
      if a.Refused? {
        return Failed(a.error);
      }
      var e := a.entry.(target := target, fallbacks := fallbacks,
                        history := HistoryAfter(prev, if prev.Some? then prev.value.history else []));
      w := Commit(name, e);
    }

    method Delete(name: Name, now: int) returns (w: Written)
      modifies this`table, this`disk
      ensures WriteOutcome(old(table), old(disk), name, DeleteAttempt(old(table), name, now, self), w, table, disk)
    {
      if name !in table || table[name].deleted {
        return Failed(NotFound);
      }
      var a := NextVersion(Some(table[name]), now, self);
      if a.Refused? {
        return Failed(a.error);
      }
      w := Commit(name, a.entry.(deleted := true, history := HistoryAfter(Some(table[name]), table[name].history)));
    }

    method Revert(name: Name, now: int) returns (w: Written)
      modifies this`table, this`disk
      ensures WriteOutcome(old(table), old(disk), name, RevertAttempt(old(table), name, now, self), w, table, disk)
    {
      if name !in table {
        return Failed(NotFound);
      }
      var prev := table[name];
      if prev.history == [] {
        return Failed(NoHistory);
      }
      var back := prev.history[0];
      var a := NextVersion(Some(prev), now, self);
      if a.Refused? {
        return Failed(a.error);
      }
      w := Commit(name, a.entry.(target := back.target, fallbacks := back.fallbacks,
                                 history := HistoryAfter(Some(prev), prev.history[1..])));
    }

    // A restart takes up the file.
    method Reopen()
      modifies this`table
      ensures table == disk
    {
      table := disk;
    }
  }

  // The conflicts a merge of r into t reports.
  function Conflicts(t: Table, r: Table): map<Name, Conflict> {
    map n | n in r && MergedAt(t, r, n).conflict.Some? :: MergedAt(t, r, n).conflict.value
  }

  lemma NothingMerged(t: Table)
    ensures MergedTable(t, map[]) == t && ChangedNames(t, map[]) == {} && Conflicts(t, map[]) == map[]
    ensures RolledBack(t, []) == t
  {
  }

  lemma NothingChanged(t: Table, r: Table)
    requires ChangedNames(t, r) == {}
    ensures MergedTable(t, r) == t
  {
    forall n ensures Find(MergedTable(t, r), n) == Find(t, n) { MergedTableAt(t, r, n); }
    SameTables(MergedTable(t, r), t);
  }

  // Merging one more entry changes that entry, by what it was before any was merged.
  lemma MergeOneMore(t: Table, r: Table, n: Name, e: Entry)
    requires n !in r && ValidName(n)
    ensures var m, was := Merged(Find(MergedTable(t, r), n), e), MergedTable(t, r);
      && (m.changed ==> m.entry.Some?)
      && MergedTable(t, r[n := e]) == (if m.changed then was[n := m.entry.value] else was)
      && ChangedNames(t, r[n := e]) == ChangedNames(t, r) + (if m.changed then {n} else {})
      && Conflicts(t, r[n := e]) == (if m.conflict.Some? then Conflicts(t, r)[n := m.conflict.value] else Conflicts(t, r))
  {
    hide Merged, MergedTable, MergedAt, ChangedNames, Conflicts, ValidName;
    var was, r' := MergedTable(t, r), r[n := e];
    MergedTableAt(t, r, n);
    AtOneMore(t, r, n, e, n);
    var m := Merged(Find(t, n), e);
    if AcceptRemote(e) { MergedOrdered(Find(t, n), e); } else { MergedRefused(Find(t, n), e); }
    var now := if m.changed then was[n := m.entry.value] else was;
    forall k ensures Find(MergedTable(t, r'), k) == Find(now, k) {
      MergedTableAt(t, r, k);
      MergedTableAt(t, r', k);
      AtOneMore(t, r, n, e, k);
    }
    SameTables(MergedTable(t, r'), now);
    NewsOneMore(t, r, n, e);
  }

  lemma AtOneMore(t: Table, r: Table, n: Name, e: Entry, k: Name)
    requires n !in r && ValidName(n)
    ensures MergedAt(t, r[n := e], k) == if k == n then Merged(Find(t, n), e) else MergedAt(t, r, k)
    ensures MergedAt(t, r, n) == Same(Find(t, n))
  {
    hide Merged;
  }

  lemma NewsOneMore(t: Table, r: Table, n: Name, e: Entry)
    requires n !in r && ValidName(n)
    ensures var m := Merged(Find(t, n), e);
      && ChangedNames(t, r[n := e]) == ChangedNames(t, r) + (if m.changed then {n} else {})
      && Conflicts(t, r[n := e]) == (if m.conflict.Some? then Conflicts(t, r)[n := m.conflict.value] else Conflicts(t, r))
  {
    hide Merged, MergedAt, ValidName;
    var r', m := r[n := e], Merged(Find(t, n), e);
    var c := if m.conflict.Some? then Conflicts(t, r)[n := m.conflict.value] else Conflicts(t, r);
    forall k
      ensures k in ChangedNames(t, r') <==> k in ChangedNames(t, r) + (if m.changed then {n} else {})
      ensures k in Conflicts(t, r') <==> k in c
      ensures k in Conflicts(t, r') ==> Conflicts(t, r')[k] == c[k]
    {
      AtOneMore(t, r, n, e, k);
      assert k in r' <==> k == n || k in r;
    }
    assert Conflicts(t, r').Keys == c.Keys;
  }

  lemma MergedValid(t: Table, valid: Table, r: Table)
    requires forall n :: n in valid ==> n in r && valid[n] == r[n] && ValidName(n)
    requires forall n :: n in r && ValidName(n) ==> n in valid
    ensures MergedTable(t, valid) == MergedTable(t, r) && ChangedNames(t, valid) == ChangedNames(t, r)
    ensures Conflicts(t, valid) == Conflicts(t, r)
  {
    hide Merged;
    forall k ensures MergedAt(t, valid, k) == MergedAt(t, r, k) { }
    forall k ensures Find(MergedTable(t, valid), k) == Find(MergedTable(t, r), k) {
      MergedTableAt(t, valid, k);
      MergedTableAt(t, r, k);
    }
    SameTables(MergedTable(t, valid), MergedTable(t, r));
  }

  // A refused write changes nothing; one not saved leaves the table exactly as it was.
  predicate WriteOutcome(t: Table, d: Table, n: Name, a: Attempt, w: Written, t': Table, d': Table) {
    match a
    case Refused(error) => w == Failed(error) && t' == t && d' == d
    case Writing(e) =>
      || (w == Done(e) && t' == d' == t[n := e])
      || (w == Failed(NotSaved) && t' == t && (d' == d || d' == t[n := e]))
  }

  lemma SameTables(t: Table, u: Table)
    requires forall n :: Find(t, n) == Find(u, n)
    ensures t == u
  {
    forall n ensures n in t <==> n in u { assert Find(t, n) == Find(u, n); }
    forall n | n in t ensures t[n] == u[n] { assert Find(t, n) == Find(u, n); }
  }

  lemma OneMerged(t: Table, n: Name, remote: Entry)
    requires ValidName(n) && Merged(Find(t, n), remote).changed
    ensures Merged(Find(t, n), remote).entry.Some?
    ensures MergedTable(t, map[n := remote]) == t[n := Merged(Find(t, n), remote).entry.value]
  {
    if AcceptRemote(remote) { MergedOrdered(Find(t, n), remote); }
    var r := map[n := remote];
    forall k ensures Find(MergedTable(t, r), k) == Find(t[n := Merged(Find(t, n), remote).entry.value], k) {
      MergedTableAt(t, r, k);
    }
    SameTables(MergedTable(t, r), t[n := Merged(Find(t, n), remote).entry.value]);
  }
}

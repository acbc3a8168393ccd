/** Push/pull between two nodes: each merges the table the other had. */
module AliasExchange {
  import opened Options
  import opened AliasHistory
  import opened AliasMerge
  import opened AliasStore

  // What an entry is to a history: nothing once it is deleted.
  function AsVersion(e: Entry): set<Version> {
    if e.deleted then {} else {VersionOf(e)}
  }

  function Versions(e: Entry): set<Version> {
    Elems(e.history) + AsVersion(e)
  }

  function VersionsOf(o: Option<Entry>): set<Version> {
    if o.Some? then Versions(o.value) else {}
  }

  // A merge puts into a history only what one of the two sides held.
  lemma MergedVersions(local: Option<Entry>, remote: Entry)
    requires AcceptRemote(remote)
    ensures Merged(local, remote).entry.Some?
    ensures Versions(Merged(local, remote).entry.value) <= VersionsOf(local) + Versions(remote)
  {
    hide UnionHistory, Compare, AcceptRemote, HoldsKey;
    MergedOrdered(local, remote);
    var r := remote.(history := Cap(remote.history));
    assert Elems(r.history) <= Elems(remote.history);
    if local.Some? {
      var l := local.value;
      assert Elems(HistoryAfter(local, l.history)) <= Versions(l) by {
        assert Elems([VersionOf(l)] + l.history) <= {VersionOf(l)} + Elems(l.history);
        assert l.deleted ==> [] + l.history == l.history;
      }
      LoserVersions(if r.history == [] then HistoryAfter(local, l.history) else r.history, l);
      LoserVersions(l.history, r);
      UnionVersions(l.history, r.history);
    }
  }

  lemma LoserVersions(h: History, loser: Entry)
    ensures Elems(WithLoserFirst(h, loser)) <= Elems(h) + AsVersion(loser)
  {
    assert Elems([VersionOf(loser)] + h) == {VersionOf(loser)} + Elems(h);
  }

  lemma UnionVersions(a: History, b: History)
    ensures Elems(UnionHistory(a, b)) <= Elems(a) + Elems(b)
  {
    DedupKeeps(a + b);
    SortKeeps(Dedup(a + b));
    assert Elems(a + b) == Elems(a) + Elems(b);
  }

  // ---- Two exchanges ----

  predicate Settled(a: Entry, b: Entry) {
    && AcceptRemote(a) && AcceptRemote(b) && |a.history| <= MAX_HISTORY && |b.history| <= MAX_HISTORY
    && Consistent(Versions(a) + Versions(b))
    && (Compare(a, b) == 0 ==> Core(a) == Core(b))
  }

  lemma MergedCaps(local: Option<Entry>, remote: Entry)
    requires AcceptRemote(remote) && (local.Some? ==> |local.value.history| <= MAX_HISTORY && AcceptRemote(local.value))
    ensures Merged(local, remote).entry.Some? && AcceptRemote(Merged(local, remote).entry.value)
    ensures |Merged(local, remote).entry.value.history| <= MAX_HISTORY
  {
    hide Compare;
  }

  // After one exchange both hold the same write.
  lemma SameWrite(a: Entry, b: Entry)
    requires AcceptRemote(a) && AcceptRemote(b) && (Compare(a, b) == 0 ==> Core(a) == Core(b))
    ensures Merged(Some(a), b).entry.Some? && Merged(Some(b), a).entry.Some?
    ensures Core(Merged(Some(a), b).entry.value) == Core(Merged(Some(b), a).entry.value)
  {
    hide Merged;
    MergedOrdered(Some(a), b);
    MergedOrdered(Some(b), a);
    CompareSwaps(a, b);
  }

  // Two entries of one write unite to the same history, whichever side does it.
  lemma TieAgrees(a: Entry, b: Entry)
    requires Core(a) == Core(b) && AcceptRemote(a)
    requires |a.history| <= MAX_HISTORY && |b.history| <= MAX_HISTORY && Consistent(Elems(a.history) + Elems(b.history))
    ensures Merged(Some(a), b).entry == Merged(Some(b), a).entry
  {
    UnionCommutes(a.history, b.history);
  }

  lemma EntriesSettle(a: Entry, b: Entry)
    requires Settled(a, b)
    ensures var a1, b1 := Merged(Some(a), b).entry, Merged(Some(b), a).entry;
      a1.Some? && b1.Some? && Merged(a1, b1.value).entry == Merged(b1, a1.value).entry
  {
    hide Merged, Consistent, UnionHistory, Versions;
    MergedCaps(Some(a), b);
    MergedCaps(Some(b), a);
    var a1, b1 := Merged(Some(a), b).entry.value, Merged(Some(b), a).entry.value;
    SameWrite(a, b);
    MergedVersions(Some(a), b);
    MergedVersions(Some(b), a);
    StillConsistent(Elems(a1.history) + Elems(b1.history), Versions(a) + Versions(b)) by {
      HistoryWithin(a1, Versions(a) + Versions(b));
      HistoryWithin(b1, Versions(a) + Versions(b));
    }
    TieAgrees(a1, b1);
  }

  lemma HistoryWithin(e: Entry, s: set<Version>)
    requires Versions(e) <= s
    ensures Elems(e.history) <= s
  {
  }

  lemma StillConsistent(s: set<Version>, t: set<Version>)
    requires s <= t && Consistent(t)
    ensures Consistent(s)
  {
  }

  predicate TableOk(t: Table) {
    forall n :: n in t ==> ValidName(n) && AcceptRemote(t[n]) && |t[n].history| <= MAX_HISTORY
  }

  // Two push/pull exchanges, with no write in between, make the tables equal, histories included.
  lemma TwoExchangesSettle(a: Table, b: Table)
    requires TableOk(a) && TableOk(b)
    requires forall n :: n in a && n in b ==> Settled(a[n], b[n])
    ensures var a1, b1 := MergedTable(a, b), MergedTable(b, a);
      MergedTable(a1, b1) == MergedTable(b1, a1)
  {
    hide MergedTable, Settled;
    var a1, b1 := MergedTable(a, b), MergedTable(b, a);
    forall n ensures Find(MergedTable(a1, b1), n) == Find(MergedTable(b1, a1), n) {
      SettlesAt(a, b, n);
    }
    SameTables(MergedTable(a1, b1), MergedTable(b1, a1));
  }

  lemma SettlesAt(a: Table, b: Table, n: Name)
    requires TableOk(a) && TableOk(b) && (n in a && n in b ==> Settled(a[n], b[n]))
    ensures var a1, b1 := MergedTable(a, b), MergedTable(b, a);
      Find(MergedTable(a1, b1), n) == Find(MergedTable(b1, a1), n)
  {
    hide MergedTable, Settled, Merged;
    var a1, b1 := MergedTable(a, b), MergedTable(b, a);
    MergedTableAt(a, b, n);
    MergedTableAt(b, a, n);
    MergedTableAt(a1, b1, n);
    MergedTableAt(b1, a1, n);
    if n in a && n in b {
      EntriesSettle(a[n], b[n]);
      assert a1[n] == Merged(Some(a[n]), b[n]).entry.value && b1[n] == Merged(Some(b[n]), a[n]).entry.value;
    } else if n in a {
      TakenWhole(a[n]);
      assert b1[n] == a[n];
    } else if n in b {
      TakenWhole(b[n]);
      assert a1[n] == b[n];
    }
  }

  lemma TakenWhole(e: Entry)
    requires AcceptRemote(e) && |e.history| <= MAX_HISTORY
    ensures Merged(None, e).entry == Some(e)
  {
  }

  // Two entries of one write are equal after an exchange if and only if their histories agree on
  // the first version of each of the newest ten (TS, By); either way no later exchange changes them.
  lemma OneWriteSettles(a: Entry, b: Entry)
    requires AcceptRemote(a) && Core(a) == Core(b) && |a.history| <= MAX_HISTORY && |b.history| <= MAX_HISTORY
    ensures var a1, b1 := Merged(Some(a), b).entry, Merged(Some(b), a).entry;
      && a1.Some? && b1.Some? && (a1 == b1 <==> Agree(a.history, b.history))
      && Merged(a1, b1.value).entry == a1 && Merged(b1, a1.value).entry == b1
  {
    hide UnionHistory, Agree;
    UnionCommutesExactly(a.history, b.history);
    ExchangedFixed(a.history, b.history);
    ExchangedFixed(b.history, a.history);
    CompareSwaps(a, b);
    UnionCaps(a.history, b.history);
    UnionCaps(b.history, a.history);
  }

  lemma UnionCaps(a: History, b: History)
    ensures |UnionHistory(a, b)| <= MAX_HISTORY
  {
  }

  // What one exchange of two different writes leaves: the loser's node has the winner's history, or
  // its own if the winner came without, and both have the loser's version where it is a conflict.
  lemma ConflictAgrees(a: Entry, b: Entry)
    requires AcceptRemote(a) && AcceptRemote(b) && |a.history| <= MAX_HISTORY && |b.history| <= MAX_HISTORY && Compare(a, b) > 0
    ensures var a1, b1 := Merged(Some(a), b).entry, Merged(Some(b), a).entry;
      a1.Some? && b1.Some? && Agree(a1.value.history, b1.value.history)
  {
    hide Agree, Compare;
    CompareSwaps(a, b);
    CompareSwaps(a, b.(history := Cap(b.history)));
    var x, y := Merged(Some(a), b).entry.value.history, Merged(Some(b), a).entry.value.history;
    NothingAgrees(y);
    if a.history == [] && IsConflict(b, a) && !b.deleted {
      var v := VersionOf(b);
      assert [v] + [] == [v] && x == [v];
      assert Cap([v] + b.history)[0] == v;
      assert HoldsKey(HistoryAfter(Some(b), b.history), b.ts, b.writer);
      assert y[0] == v;
      HeadAgrees(v, y);
    }
  }

  lemma DifferentAgree(a: Entry, b: Entry)
    requires AcceptRemote(a) && AcceptRemote(b) && |a.history| <= MAX_HISTORY && |b.history| <= MAX_HISTORY && Compare(a, b) != 0
    ensures var a1, b1 := Merged(Some(a), b).entry, Merged(Some(b), a).entry;
      a1.Some? && b1.Some? && Agree(a1.value.history, b1.value.history)
  {
    hide Agree, Merged;
    CompareSwaps(a, b);
    if Compare(a, b) > 0 {
      ConflictAgrees(a, b);
    } else {
      ConflictAgrees(b, a);
      AgreeSwaps(Merged(Some(b), a).entry.value.history, Merged(Some(a), b).entry.value.history);
    }
  }

  // Any two entries: two exchanges make them equal if and only if they are different writes, or
  // their histories agree on the first version of each of the newest ten (TS, By). If they do not,
  // no number of exchanges does.
  lemma TwoExchangesExactly(a: Entry, b: Entry)
    requires AcceptRemote(a) && AcceptRemote(b) && |a.history| <= MAX_HISTORY && |b.history| <= MAX_HISTORY
    requires Compare(a, b) == 0 ==> Core(a) == Core(b)
    ensures var a1, b1 := Merged(Some(a), b).entry, Merged(Some(b), a).entry;
      && a1.Some? && b1.Some?
      && var a2, b2 := Merged(a1, b1.value).entry, Merged(b1, a1.value).entry;
      && a2.Some? && b2.Some? && (a2 == b2 <==> Compare(a, b) != 0 || Agree(a.history, b.history))
      && Merged(a2, b2.value).entry == a2 && Merged(b2, a2.value).entry == b2
  {
    hide Merged, Agree, Compare;
    SameWrite(a, b);
    MergedCaps(Some(a), b);
    MergedCaps(Some(b), a);
    var a1, b1 := Merged(Some(a), b).entry.value, Merged(Some(b), a).entry.value;
    OneWriteSettles(a1, b1);
    if Compare(a, b) != 0 {
      DifferentAgree(a, b);
    } else {
      OneWriteSettles(a, b);
    }
  }

  // The entry of one name settles.
  predicate EntriesAgree(a: Entry, b: Entry) {
    Compare(a, b) != 0 || Agree(a.history, b.history)
  }

  lemma NameSettles(a: Table, b: Table, n: Name)
    requires TableOk(a) && TableOk(b) && (n in a && n in b && Compare(a[n], b[n]) == 0 ==> Core(a[n]) == Core(b[n]))
    ensures var a1, b1 := MergedTable(a, b), MergedTable(b, a);
      Find(MergedTable(a1, b1), n) == Find(MergedTable(b1, a1), n) <==> (n in a && n in b ==> EntriesAgree(a[n], b[n]))
  {
    hide MergedTable, Merged, Agree, Compare, Core;
    var a1, b1 := MergedTable(a, b), MergedTable(b, a);
    MergedTableAt(a, b, n);
    MergedTableAt(b, a, n);
    MergedTableAt(a1, b1, n);
    MergedTableAt(b1, a1, n);
    if n in a && n in b {
      TwoExchangesExactly(a[n], b[n]);
      assert a1[n] == Merged(Some(a[n]), b[n]).entry.value && b1[n] == Merged(Some(b[n]), a[n]).entry.value;
    } else if n in a {
      TakenWhole(a[n]);
      assert b1[n] == a[n];
    } else if n in b {
      TakenWhole(b[n]);
      assert a1[n] == b[n];
    }
  }

  // Two exchanges make two tables equal, histories included, if and only if every name that both
  // have is of different writes or has histories that agree.
  lemma TablesSettleExactly(a: Table, b: Table)
    requires TableOk(a) && TableOk(b)
    requires forall n :: n in a && n in b && Compare(a[n], b[n]) == 0 ==> Core(a[n]) == Core(b[n])
    ensures var a1, b1 := MergedTable(a, b), MergedTable(b, a);
      MergedTable(a1, b1) == MergedTable(b1, a1) <==> forall n :: n in a && n in b ==> EntriesAgree(a[n], b[n])
  {
    hide MergedTable, EntriesAgree, Compare, Core, TableOk;
    var a1, b1 := MergedTable(a, b), MergedTable(b, a);
    forall n ensures Find(MergedTable(a1, b1), n) == Find(MergedTable(b1, a1), n) <==> (n in a && n in b ==> EntriesAgree(a[n], b[n])) {
      NameSettles(a, b, n);
    }
    if forall n :: n in a && n in b ==> EntriesAgree(a[n], b[n]) {
      SameTables(MergedTable(a1, b1), MergedTable(b1, a1));
    }
  }

  // So it does need one write per node and millisecond: two histories that hold different versions
  // under one (TS, By) stay different however often they are exchanged.
  lemma NeverSettles(a: Entry, b: Entry, v: Version, w: Version)
    requires AcceptRemote(a) && Core(a) == Core(b) && a.history == [v] && b.history == [w]
    requires SameKey(v, w) && v != w
    ensures Merged(Some(a), b).entry == Some(a) && Merged(Some(b), a).entry == Some(b) && a != b
  {
    FirstWins(v, w);
    FirstWins(w, v);
  }
}

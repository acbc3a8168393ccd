/**
 A run of the mesh whose histories never agree: one node writes an alias twice in one millisecond,
 each of the two writes is lost to a different peer, and a third write reaches both.
 */
module AliasTies {
  import opened Options
  import opened AliasHistory
  import opened AliasMerge
  import opened AliasExchange
  import opened AliasService
  import opened AliasMesh

  const NODES: seq<string> := ["a", "b", "c"]
  const ALIAS: Name := "m"

  // The k-th write of the alias by the first node; the first two in one millisecond.
  function Target(k: nat): string {
    if k == 0 then "x" else if k == 1 then "y" else "z"
  }

  function Stamp(k: nat): int {
    if k < 2 then 0 else 1
  }

  function Bare(k: nat): Entry {
    Entry(Target(k), [], k + 1, Stamp(k), "a", false, [])
  }

  function Writes(k: nat): Event {
    Submit(0, ALIAS, Setting(Target(k), []), Stamp(k), Saved)
  }

  // The k-th write arrives at a peer.
  function Arrives(i: nat, k: nat): Event {
    Cast(i, Write(ALIAS, Bare(k)), Saved)
  }

  const RUN: seq<Event> := [Writes(0), Arrives(1, 0), Writes(1), Arrives(2, 1), Writes(2), Arrives(1, 2), Arrives(2, 2)]

  // What the peers hold of the alias.
  predicate Hold(m: Mesh, a: Option<Entry>, b: Option<Entry>, c: Option<Entry>) {
    && |m.peers| == 3 && m.peers[0].self == "a"
    && m.peers[0].table == One(a) && m.peers[1].table == One(b) && m.peers[2].table == One(c)
  }

  function One(e: Option<Entry>): Table {
    if e.Some? then map[ALIAS := e.value] else map[]
  }

  lemma OneLive(e: Option<Entry>)
    ensures Live(One(e)) <= 1
  {
    var s := set n | n in One(e) && !One(e)[n].deleted;
    assert s <= {ALIAS};
    if s != {} {
      assert s == {ALIAS};
    }
  }

  lemma WriteStep(m: Mesh, a: Option<Entry>, b: Option<Entry>, c: Option<Entry>, k: nat)
    requires k < 3 && Hold(m, a, b, c) && (if k == 0 then a.None? else a.Some? && a.value.ver == k && !a.value.deleted)
    ensures Enabled(m, Writes(k)) && m.casts <= Next(m, Writes(k)).casts && Write(ALIAS, Bare(k)) in Next(m, Writes(k)).casts
    ensures exists h :: Hold(Next(m, Writes(k)), Some(Bare(k).(history := h)), b, c)
  {
    OneLive(a);
    assert ValidName(ALIAS);
    var x := Submitted(One(a), ALIAS, Setting(Target(k), []), Stamp(k), "a");
    var h := x.entry.history;
    assert x == Writing(Bare(k).(history := h));
    assert One(a)[ALIAS := x.entry] == One(Some(x.entry));
    assert Core(x.entry) == Bare(k);
    assert Hold(Next(m, Writes(k)), Some(Bare(k).(history := h)), b, c);
  }

  // A first broadcast is taken as it is; a later one puts what was held into the history.
  lemma Taken(e: Option<Entry>, k: nat)
    requires k < 3 && (e.Some? ==> e.value.ver <= k && e.value.history == [] && !e.value.deleted)
    ensures var x := Bare(k).(history := if e.Some? then [VersionOf(e.value)] else []);
      && Merged(e, Bare(k)).entry == Some(x) && Merged(e, Bare(k)).changed
      && MergedTable(One(e), map[ALIAS := Bare(k)]) == One(Some(x)) && ALIAS in ChangedNames(One(e), map[ALIAS := Bare(k)])
  {
    var r := map[ALIAS := Bare(k)];
    var x := Bare(k).(history := if e.Some? then [VersionOf(e.value)] else []);
    if e.Some? {
      assert [VersionOf(e.value)] + [] == [VersionOf(e.value)];
    }
    assert Merged(e, Bare(k)).entry == Some(x) && Merged(e, Bare(k)).changed by { TakenAlone(e, k); }
    assert ValidName(ALIAS) && Find(One(e), ALIAS) == e;
    MergedTableAt(One(e), r, ALIAS);
    assert MergedAt(One(e), r, ALIAS) == Merged(e, Bare(k));
    assert MergedTable(One(e), r) == One(Some(x));
  }

  lemma TakenAlone(e: Option<Entry>, k: nat)
    requires k < 3 && (e.Some? ==> e.value.ver <= k && e.value.history == [] && !e.value.deleted)
    ensures Merged(e, Bare(k)).changed
    ensures Merged(e, Bare(k)).entry == Some(Bare(k).(history := if e.Some? then [VersionOf(e.value)] else []))
  {
    if e.Some? {
      assert [VersionOf(e.value)] + [] == [VersionOf(e.value)];
    }
  }

  lemma ArriveStep(m: Mesh, i: nat, e: Option<Entry>, k: nat)
    requires i < |m.peers| == 3 && m.peers[i].table == One(e) && k < 3 && Write(ALIAS, Bare(k)) in m.casts
    requires e.Some? ==> e.value.ver <= k && e.value.history == [] && !e.value.deleted
    ensures Enabled(m, Arrives(i, k)) && m.casts <= Next(m, Arrives(i, k)).casts
    ensures var m' := Next(m, Arrives(i, k));
      && m'.peers == m.peers[i := m'.peers[i]] && m'.peers[i].self == m.peers[i].self
      && m'.peers[i].table == One(Some(Bare(k).(history := if e.Some? then [VersionOf(e.value)] else [])))
  {
    hide MergedTable, ChangedNames, News, Bare;
    Taken(e, k);
    assert map[Write(ALIAS, Bare(k)).name := Write(ALIAS, Bare(k)).entry] == map[ALIAS := Bare(k)];
  }

  lemma Prepend(m: Mesh, e: Event, es: seq<Event>)
    requires Enabled(m, e) && Allowed(Next(m, e), es)
    ensures Allowed(m, [e] + es) && After(m, [e] + es) == After(Next(m, e), es)
  {
    hide Enabled, Next;
    assert ([e] + es)[1..] == es && ([e] + es)[0] == e;
  }

  lemma {:induction false} Append(m: Mesh, es: seq<Event>, e: Event)
    requires Allowed(m, es) && Enabled(After(m, es), e)
    ensures Allowed(m, es + [e]) && After(m, es + [e]) == Next(After(m, es), e)
    decreases |es|
  {
    hide Enabled, Next;
    if es == [] {
      assert [] + [e] == [e] && [e][1..] == [];
      Prepend(m, e, []);
    } else {
      Append(Next(m, es[0]), es[1..], e);
      Prepend(m, es[0], es[1..] + [e]);
      assert [es[0]] + (es[1..] + [e]) == es + [e];
    }
  }

  // Where the run stands after its first k events.
  predicate Stands(k: nat, m: Mesh, h: History) {
    match k
    case 0 => Hold(m, None, None, None)
    case 1 => Hold(m, Some(Bare(0).(history := h)), None, None) && Write(ALIAS, Bare(0)) in m.casts
    case 2 => Hold(m, Some(Bare(0).(history := h)), Some(Bare(0)), None)
    case 3 => Hold(m, Some(Bare(1).(history := h)), Some(Bare(0)), None) && Write(ALIAS, Bare(1)) in m.casts
    case 4 => Hold(m, Some(Bare(1).(history := h)), Some(Bare(0)), Some(Bare(1)))
    case 5 => Hold(m, Some(Bare(2).(history := h)), Some(Bare(0)), Some(Bare(1))) && Write(ALIAS, Bare(2)) in m.casts
    case 6 => Hold(m, Some(Bare(2).(history := h)), Some(Late(0)), Some(Bare(1))) && Write(ALIAS, Bare(2)) in m.casts
    case _ => Hold(m, Some(Bare(2).(history := h)), Some(Late(0)), Some(Late(1)))
  }

  // The third write over the k-th.
  function Late(k: nat): Entry {
    Bare(2).(history := [VersionOf(Bare(k))])
  }

  lemma Goes(k: nat, m: Mesh, h: History) returns (h': History)
    requires k < |RUN| && Stands(k, m, h)
    ensures Enabled(m, RUN[k]) && Stands(k + 1, Next(m, RUN[k]), h')
  {
    hide Next, Enabled;
    h' := h;
    if k == 0 || k == 2 || k == 4 {
      var a := if k == 0 then None else Some(Bare(k / 2 - 1).(history := h));
      var b := if k < 2 then None else Some(Bare(0));
      var c := if k < 4 then None else Some(Bare(1));
      WriteStep(m, a, b, c, k / 2);
      var g :| Hold(Next(m, Writes(k / 2)), Some(Bare(k / 2).(history := g)), b, c);
      h' := g;
    } else if k == 1 {
      ArriveStep(m, 1, None, 0);
    } else if k == 3 {
      ArriveStep(m, 2, None, 1);
    } else if k == 5 {
      ArriveStep(m, 1, Some(Bare(0)), 2);
    } else {
      ArriveStep(m, 2, Some(Bare(1)), 2);
    }
  }

  lemma {:induction false} RunsTo(k: nat) returns (h: History)
    requires k <= |RUN|
    ensures Allowed(Start(NODES), RUN[..k]) && Stands(k, After(Start(NODES), RUN[..k]), h)
  {
    hide Next, Enabled, Stands;
    if k == 0 {
      h := [];
      assert RUN[..0] == [];
      StartStands();
    } else {
      var g := RunsTo(k - 1);
      h := Goes(k - 1, After(Start(NODES), RUN[..k - 1]), g);
      Append(Start(NODES), RUN[..k - 1], RUN[k - 1]);
      assert RUN[..k] == RUN[..k - 1] + [RUN[k - 1]];
    }
  }

  lemma StartStands()
    ensures Stands(0, Start(NODES), [])
  {
  }

  // The run is one of the mesh, and leaves two peers with one write and histories that differ now
  // and after every exchange.
  lemma TiesNeverSettle()
    ensures Allowed(Start(NODES), RUN)
    ensures var m := After(Start(NODES), RUN);
      && ALIAS in m.peers[1].table && ALIAS in m.peers[2].table
      && var b, c := m.peers[1].table[ALIAS], m.peers[2].table[ALIAS];
      && Core(b) == Core(c) && |b.history| == 1 && |c.history| == 1
      && SameKey(b.history[0], c.history[0]) && b.history[0] != c.history[0]
      && Merged(Some(b), c).entry == Some(b) && Merged(Some(c), b).entry == Some(c) && b != c
  {
    hide Allowed, After, Merged;
    var h := RunsTo(|RUN|);
    assert RUN[..|RUN|] == RUN;
    NeverSettles(Late(0), Late(1), VersionOf(Bare(0)), VersionOf(Bare(1)));
  }
}

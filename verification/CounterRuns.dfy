/** Every run of the counters: minutes written one after another, with failed saves, failed reads, crashes and reloads anywhere. */
module CounterRuns {
  import opened Options
  import opened Rings
  import opened ClientTotals

  // The minutes counted so far, and whether the mark has passed one that was not.
  datatype Tally = Tally(minutes: seq<Minute>, lost: bool)

  // The ring, the totals file, the totals in memory while the process runs, and the minutes that
  // reached the ring. For each totals, its tally. A process is blind if its reload could not read
  // minutes that were due, until it counts a later one.
  datatype World = World(slots: Slots<Use>, lanes: nat, file: Option<Totals>, totals: Option<Totals>, log: seq<Minute>,
                         inFile: Tally, inMemory: Tally, blind: bool)

  // How far a minute's write came: not into the ring; into it and no further; counted but not
  // saved; saved just before a crash; all of it.
  datatype Fate = NotPut | PutOnly | NotSaved | SavedLast | Done

  // A reload can fail to save, and to read the ring.
  datatype Event = Open(since: int, saved: bool, read: bool) | Write(m: Minute, fate: Fate) | Crash

  // The totals a reload starts from.
  function Base(w: World, since: int): Totals {
    if w.file.Some? then w.file.value else Totals(since, since - 60, map[])
  }

  function BaseTally(w: World): Tally {
    if w.file.Some? then w.inFile else Tally([], false)
  }

  // The minutes a reload finds past the mark: none, if the ring cannot be read.
  function Found(w: World, since: int, read: bool): seq<Minute> {
    if read then Pending(w.slots, Base(w, since).through) else []
  }

  function Loaded(w: World, since: int, read: bool): Totals {
    var b, p := Base(w, since), Found(w, since, read);
    Totals(b.since, if p == [] then b.through else p[|p| - 1].ts, AddMinutes(b.rows, p))
  }

  function LoadedTally(w: World, since: int, read: bool): Tally {
    Tally(BaseTally(w).minutes + Found(w, since, read), BaseTally(w).lost)
  }

  // A reload that cannot read the minutes that are due.
  predicate Blinds(w: World, since: int, read: bool) {
    !read && Pending(w.slots, Base(w, since).through) != []
  }

  function Counted(t: Totals, m: Minute): Totals {
    if m.ts <= t.through then t else Totals(t.since, m.ts, AddRecs(t.rows, m.recs))
  }

  function CountedTally(t: Totals, c: Tally, blind: bool, m: Minute): Tally {
    if m.ts <= t.through then c else Tally(c.minutes + [m], c.lost || blind)
  }

  function Opened(w: World, since: int, saved: bool, read: bool): World {
    var t, c := Loaded(w, since, read), LoadedTally(w, since, read);
    var saves := saved && (w.file.None? || Found(w, since, read) != []);
    w.(totals := Some(t), inMemory := c, blind := Blinds(w, since, read),
       file := if saves then Some(t) else w.file, inFile := if saves then c else w.inFile)
  }

  function Halted(w: World): World {
    w.(totals := None, inMemory := Tally([], false), blind := false)
  }

  function Wrote(w: World, m: Minute, fate: Fate): World
    requires w.totals.Some? && |w.slots| > 0 && |m.recs| <= w.lanes
  {
    if fate.NotPut? then w
    else
      var put := w.(slots := PutMinute(w.slots, w.lanes, m), log := w.log + [m]);
      var counts := m.ts > w.totals.value.through;
      var t, c := Counted(w.totals.value, m), CountedTally(w.totals.value, w.inMemory, w.blind, m);
      var counted := put.(totals := Some(t), inMemory := c, blind := w.blind && !counts);
      var saved := if counts then counted.(file := Some(t), inFile := c) else counted;
      match fate
      case PutOnly => Halted(put)
      case NotSaved => counted
      case SavedLast => Halted(saved)
      case _ => saved
  }

  // A reload comes before the ring has lapped a minute that is due; minutes come in order.
  predicate Allowed(w: World, e: Event) {
    match e
    case Open(since, _, _) =>
      && |w.slots| > 0 && since >= 60
      && (forall i :: 0 <= i < |w.log| && w.log[i].ts > Base(w, since).through && w.log[i].recs != [] ==>
            Unlapped(w.log, |w.slots|, i))
    case Write(m, _) => w.totals.Some? && |w.slots| > 0 && |m.recs| <= w.lanes && LogOk(w.log + [m], w.lanes)
    case Crash => true
  }

  function Next(w: World, e: Event): World
    requires Allowed(w, e)
  {
    match e
    case Open(since, saved, read) => if w.totals.Some? then w else Opened(w, since, saved, read)
    case Write(m, fate) => Wrote(w, m, fate)
    case Crash => Halted(w)
  }

  // After a save, the file is the totals in memory: a reload saves if it made new totals or counted a
  // minute, and a minute counted is saved.
  lemma SavedIsMemory(w: World, since: int, read: bool, m: Minute)
    ensures var o := Opened(w, since, true, read); o.file == o.totals
    ensures w.totals.Some? && |w.slots| > 0 && |m.recs| <= w.lanes && m.ts > w.totals.value.through ==>
      var d := Wrote(w, m, Done); d.file == d.totals
  {
    hide Pending, AddMinutes, AddRecs, PutMinute;
    NoMinutes(Base(w, since).rows);
  }

  // ---- What is counted ----

  predicate Marked(t: Totals, l: seq<Minute>) {
    t.through == t.since - 60 || exists i :: 0 <= i < |l| && l[i].ts == t.through
  }

  // The totals are those of the minutes counted, each a minute of the log from since up to the
  // mark, and each once.
  predicate TotalsOk(t: Totals, c: Tally, l: seq<Minute>) {
    && t.since >= 60 && t.through >= t.since - 60 && Marked(t, l)
    && t.rows == AddMinutes(map[], c.minutes) && Rising(Times(c.minutes))
    && (forall m :: m in c.minutes ==> m in l && t.since - 60 < m.ts <= t.through)
  }

  // A minute from since up to the mark, with records, that was not counted.
  predicate Passed(t: Totals, c: Tally, m: Minute) {
    m.recs != [] && t.since - 60 < m.ts <= t.through && m !in c.minutes
  }

  // A minute with records past the mark.
  predicate Waits(t: Totals, m: Minute) {
    m.recs != [] && t.through < m.ts
  }

  predicate TallyOk(t: Totals, c: Tally, l: seq<Minute>) {
    TotalsOk(t, c, l) && (c.lost <==> exists m :: m in l && Passed(t, c, m))
  }

  predicate BlindOk(t: Totals, blind: bool, l: seq<Minute>) {
    blind <==> exists m :: m in l && Waits(t, m)
  }

  predicate WorldOk(w: World) {
    && RingOk(w.slots, w.lanes, w.log)
    && (w.file.Some? ==> TallyOk(w.file.value, w.inFile, w.log))
    && (w.totals.Some? ==> TallyOk(w.totals.value, w.inMemory, w.log) && BlindOk(w.totals.value, w.blind, w.log))
  }

  lemma MarkedPush(t: Totals, l: seq<Minute>, m: Minute)
    requires Marked(t, l)
    ensures Marked(t, l + [m])
  {
    if i :| 0 <= i < |l| && l[i].ts == t.through {
      assert (l + [m])[i].ts == t.through;
    }
  }

  lemma LaterThan(l: seq<Minute>, m: Minute, lanes: nat, x: Minute)
    requires LogOk(l + [m], lanes) && x in l
    ensures x.ts < m.ts
  {
    var i :| 0 <= i < |l| && l[i] == x;
    assert (l + [m])[i] == x && (l + [m])[|l|] == m;
  }

  // A later minute is past every mark, unless nothing has been counted yet.
  lemma PastMark(t: Totals, l: seq<Minute>, m: Minute, lanes: nat)
    requires Marked(t, l) && LogOk(l + [m], lanes) && m.ts <= t.through
    ensures t.through == t.since - 60
  {
    hide LogOk;
    if i :| 0 <= i < |l| && l[i].ts == t.through {
      LaterThan(l, m, lanes, l[i]);
    }
  }

  // A later minute changes nothing that was counted before.
  lemma TallyPush(t: Totals, c: Tally, l: seq<Minute>, m: Minute, lanes: nat)
    requires TallyOk(t, c, l) && LogOk(l + [m], lanes)
    ensures TallyOk(t, c, l + [m])
  {
    hide AddMinutes, Rising, Times, LogOk, Marked;
    MarkedPush(t, l, m);
    if m.ts <= t.through { PastMark(t, l, m, lanes); }
    assert forall x :: x in l + [m] <==> x in l || x == m;
  }

  lemma CountedOk(t: Totals, c: Tally, blind: bool, l: seq<Minute>, m: Minute, lanes: nat)
    requires TallyOk(t, c, l) && BlindOk(t, blind, l) && LogOk(l + [m], lanes)
    ensures var t', l' := Counted(t, m), l + [m];
      TallyOk(t', CountedTally(t, c, blind, m), l') && BlindOk(t', blind && m.ts <= t.through, l')
  {
    hide AddMinutes, Rising, Times, LogOk, Marked;
    var l' := l + [m];
    assert forall x :: x in l' <==> x in l || x == m;
    if m.ts <= t.through {
      TallyPush(t, c, l, m, lanes);
    } else {
      var t', c' := Counted(t, m), CountedTally(t, c, blind, m);
      forall x | x in l ensures x.ts < m.ts { LaterThan(l, m, lanes, x); }
      AddMinutesPush(map[], c.minutes, m);
      RisingPush(c.minutes, m);
      assert Marked(t', l') by { assert l'[|l|].ts == t'.through; MarkedHere(t', l', |l|); }
      assert forall x :: x in c'.minutes <==> x in c.minutes || x == m;
      forall x | x in l ensures Passed(t', c', x) <==> Passed(t, c, x) || Waits(t, x) {}
    }
  }

  lemma MarkedHere(t: Totals, l: seq<Minute>, i: nat)
    requires i < |l| && l[i].ts == t.through
    ensures Marked(t, l)
  {
  }

  lemma BaseOk(w: World, since: int)
    requires WorldOk(w) && since >= 60
    ensures TallyOk(Base(w, since), BaseTally(w), w.log)
  {
    hide RingOk;
  }

  // A reload that reads the ring counts every minute that is due, and no other.
  lemma DueCounted(t: Totals, c: Tally, l: seq<Minute>, lanes: nat, t': Totals, c': Tally)
    requires TallyOk(t, c, l) && LogOk(l, lanes)
    requires var p := Due(l, t.through);
      t' == Totals(t.since, if p == [] then t.through else p[|p| - 1].ts, AddMinutes(t.rows, p)) && c' == Tally(c.minutes + p, c.lost)
    ensures TallyOk(t', c', l) && BlindOk(t', false, l)
  {
    hide AddMinutes, Due, LogOk, Rising, Times, Marked;
    var p := Due(l, t.through);
    DueIs(l, lanes, t.through);
    DueLast(l, lanes, t, t');
    AddMinutesConcat(map[], c.minutes, p);
    RisingConcat(c.minutes, p, t.through);
    assert forall x :: x in c'.minutes <==> x in c.minutes || x in p;
    forall x | x in l ensures !Waits(t', x) && (Passed(t', c', x) <==> Passed(t, c, x)) {}
  }

  lemma RisingConcat(a: seq<Minute>, b: seq<Minute>, h: int)
    requires Rising(Times(a)) && Rising(Times(b))
    requires (forall m :: m in a ==> m.ts <= h) && (forall m :: m in b ==> h < m.ts)
    ensures Rising(Times(a + b))
  {
    var t := Times(a + b);
    forall i, j | 0 <= i < j < |t| ensures t[i] < t[j] {
      if j < |a| {
        assert Times(a)[i] < Times(a)[j];
      } else if i < |a| {
        assert a[i] in a && b[j - |a|] in b;
      } else {
        assert Times(b)[i - |a|] < Times(b)[j - |a|];
      }
    }
  }

  // The last minute due is the latest of them, and one of the log.
  lemma DueLast(l: seq<Minute>, lanes: nat, t: Totals, t': Totals)
    requires LogOk(l, lanes) && Marked(t, l) && t'.since == t.since
    requires var p := Due(l, t.through); t'.through == if p == [] then t.through else p[|p| - 1].ts
    ensures t.through <= t'.through && Marked(t', l) && forall m :: m in Due(l, t.through) ==> m.ts <= t'.through
  {
    hide Due, LogOk;
    DueIs(l, lanes, t.through);
    var p := Due(l, t.through);
    if p != [] {
      TimesAt(p);
      var x := p[|p| - 1];
      assert x in p && x in l;
      forall m | m in p ensures m.ts <= t'.through {
        var k :| 0 <= k < |p| && p[k] == m;
      }
    }
  }

  // A reload that cannot is blind exactly if a minute is due.
  lemma LoadedOk(w: World, since: int, read: bool)
    requires WorldOk(w) && Allowed(w, Open(since, true, read))
    ensures TallyOk(Loaded(w, since, read), LoadedTally(w, since, read), w.log)
    ensures BlindOk(Loaded(w, since, read), Blinds(w, since, read), w.log)
  {
    hide Pending, AddMinutes, Due, RingOk, Unlapped, TotalsOk, Passed;
    var b, c := Base(w, since), BaseTally(w);
    BaseOk(w, since);
    BaseMark(w, since);
    RingLogOk(w.slots, w.lanes, w.log);
    PendingIsDue(w.slots, w.lanes, w.log, b.through);
    if read {
      DueCounted(b, c, w.log, w.lanes, Loaded(w, since, read), LoadedTally(w, since, read));
    } else {
      DueIs(w.log, w.lanes, b.through);
      var p := Due(w.log, b.through);
      NoMinutes(b.rows);
      assert c.minutes + [] == c.minutes;
      if p != [] { assert p[0] in p; assert Waits(b, p[0]); }
    }
  }

  lemma BaseMark(w: World, since: int)
    requires WorldOk(w) && since >= 60
    ensures Base(w, since).through >= 0
  {
  }

  lemma NoMinutes(rows: Rows)
    ensures AddMinutes(rows, []) == rows
  {
  }

  lemma NextOk(w: World, e: Event)
    requires WorldOk(w) && Allowed(w, e)
    ensures WorldOk(Next(w, e))
  {
    hide RingOk, TallyOk, BlindOk, Loaded, LoadedTally, Blinds, Counted, CountedTally, PutMinute, LogOk, Pending, Unlapped;
    match e
    case Open(since, saved, read) =>
      if w.totals.None? { LoadedOk(w, since, read); }
    case Write(m, fate) =>
      if !fate.NotPut? {
        PutRingOk(w.slots, w.lanes, w.log, m);
        CountedOk(w.totals.value, w.inMemory, w.blind, w.log, m, w.lanes);
        if w.file.Some? { TallyPush(w.file.value, w.inFile, w.log, m, w.lanes); }
      }
    case Crash =>
  }

  // ---- Runs ----

  predicate RunAllowed(w: World, es: seq<Event>)
    decreases |es|
  {
    es == [] || (Allowed(w, es[0]) && RunAllowed(Next(w, es[0]), es[1..]))
  }

  function After(w: World, es: seq<Event>): World
    requires RunAllowed(w, es)
    decreases |es|
  {
    if es == [] then w else After(Next(w, es[0]), es[1..])
  }

  lemma {:induction false} RunOk(w: World, es: seq<Event>)
    requires WorldOk(w) && RunAllowed(w, es)
    ensures WorldOk(After(w, es)) && w.log <= After(w, es).log
    decreases |es|
  {
    hide WorldOk, Allowed;
    if es != [] {
      NextOk(w, es[0]);
      LogGrows(w, es[0]);
      RunOk(Next(w, es[0]), es[1..]);
    }
  }

  lemma LogGrows(w: World, e: Event)
    requires Allowed(w, e)
    ensures w.log <= Next(w, e).log
  {
    hide Counted, CountedTally, PutMinute, LogOk, Loaded, LoadedTally, Blinds;
  }

  function Fresh(slots: nat, lanes: nat): World {
    World(seq(slots, _ => seq(lanes, _ => ZERO)), lanes, None, None, [], Tally([], false), Tally([], false), false)
  }

  lemma FreshOk(slots: nat, lanes: nat)
    requires slots > 0
    ensures WorldOk(Fresh(slots, lanes))
  {
  }

  // The minutes from since on.
  function From(l: seq<Minute>, since: int): seq<Minute> {
    if l == [] then []
    else if l[|l| - 1].ts > since - 60 then From(l[..|l| - 1], since) + [l[|l| - 1]]
    else From(l[..|l| - 1], since)
  }

  // Every minute with records from since on was counted.
  predicate AllCounted(c: seq<Minute>, l: seq<Minute>, since: int) {
    forall m :: m in l && m.recs != [] && m.ts > since - 60 ==> m in c
  }

  lemma RisingInit(c: seq<Minute>)
    requires c != [] && Rising(Times(c))
    ensures var init, x := c[..|c| - 1], c[|c| - 1];
      c == init + [x] && Rising(Times(init)) && x !in init && forall m :: m in init ==> m.ts < x.ts
  {
    var init := c[..|c| - 1];
    TimesAt(c);
    TimesAt(init);
  }

  // Minutes without records count for nothing, so the minutes counted can stand for the log.
  lemma {:induction false} AllFrom(c: seq<Minute>, l: seq<Minute>, lanes: nat, since: int)
    requires LogOk(l, lanes) && Rising(Times(c)) && AllCounted(c, l, since)
    requires forall m :: m in c ==> m in l && m.ts > since - 60
    ensures AddMinutes(map[], c) == AddMinutes(map[], From(l, since))
  {
    hide AddMinutes, LogOk, Rising, Times;
    if l == [] {
      if c != [] { SomeIn(c); }
    } else {
      var init, m := l[..|l| - 1], l[|l| - 1];
      assert l == init + [m];
      LogInit(l, lanes);
      if m in c {
        RisingInit(c);
        LastCounted(c, l, lanes);
        var c0 := c[..|c| - 1];
        assert AllCounted(c0, init, since) by { InitCounted(c0, m, init, lanes, since); }
        AllFrom(c0, init, lanes, since);
        AddMinutesPush(map[], c0, m);
        AddMinutesPush(map[], From(init, since), m);
      } else {
        AllFrom(c, init, lanes, since);
        AddMinutesPush(map[], From(init, since), m);
        if m.ts > since - 60 { NothingAdded(AddMinutes(map[], From(init, since)), m.recs); }
      }
    }
  }

  lemma LogInit(l: seq<Minute>, lanes: nat)
    requires LogOk(l, lanes) && l != []
    ensures LogOk(l[..|l| - 1], lanes) && forall i :: 0 <= i < |l| - 1 ==> l[i].ts < l[|l| - 1].ts
  {
  }

  lemma LastCounted(c: seq<Minute>, l: seq<Minute>, lanes: nat)
    requires LogOk(l, lanes) && Rising(Times(c)) && l != [] && l[|l| - 1] in c && forall m :: m in c ==> m in l
    ensures c[|c| - 1] == l[|l| - 1]
  {
    hide LogOk;
    LogInit(l, lanes);
    TimesAt(c);
    var x := c[|c| - 1];
    assert x in c && x in l;
    var k :| 0 <= k < |c| && c[k] == l[|l| - 1];
    var i :| 0 <= i < |l| && l[i] == x;
  }

  lemma InitCounted(c0: seq<Minute>, m: Minute, init: seq<Minute>, lanes: nat, since: int)
    requires LogOk(init + [m], lanes) && AllCounted(c0 + [m], init + [m], since)
    ensures AllCounted(c0, init, since)
  {
    hide LogOk;
    forall x | x in init && x.recs != [] && x.ts > since - 60 ensures x in c0 {
      LaterThan(init, m, lanes, x);
      assert x in init + [m] && x in c0 + [m];
    }
  }

  lemma NothingAdded(rows: Rows, recs: Records)
    requires recs == []
    ensures AddRecs(rows, recs) == rows
  {
  }

  // The counters of a world and its tally.
  lemma WorldCounts(w: World)
    requires WorldOk(w) && w.totals.Some?
    ensures var t, c := w.totals.value, w.inMemory.minutes;
      && t.rows == AddMinutes(map[], c) && Rising(Times(c))
      && (forall m :: m in c ==> m in w.log && m.ts > t.since - 60)
      && (AllCounted(c, w.log, t.since) <==> !w.inMemory.lost && !w.blind)
      && (AllCounted(c, w.log, t.since) ==> t.rows == AddMinutes(map[], From(w.log, t.since)))
  {
    hide RingOk, AddMinutes, Rising, Times, From, Marked;
    var t, c := w.totals.value, w.inMemory;
    if x :| x in w.log && Passed(t, c, x) {
      assert !AllCounted(c.minutes, w.log, t.since);
    }
    if x :| x in w.log && Waits(t, x) {
      assert !AllCounted(c.minutes, w.log, t.since);
    }
    RingLogOk(w.slots, w.lanes, w.log);
    if AllCounted(c.minutes, w.log, t.since) {
      AllFrom(c.minutes, w.log, w.lanes, t.since);
    }
  }

  // Over every run: the counters are those of minutes that reached the ring since counting began,
  // none of them twice; and they are those of all of them exactly if the process is not blind and
  // neither it nor one before it, whose totals it started from, was blind when it counted.
  lemma AtMostOnce(slots: nat, lanes: nat, es: seq<Event>)
    requires slots > 0 && RunAllowed(Fresh(slots, lanes), es) && After(Fresh(slots, lanes), es).totals.Some?
    ensures var w := After(Fresh(slots, lanes), es);
      var t, c := w.totals.value, w.inMemory.minutes;
      && t.rows == AddMinutes(map[], c) && Rising(Times(c))
      && (forall m :: m in c ==> m in w.log && m.ts > t.since - 60)
      && (AllCounted(c, w.log, t.since) <==> !w.inMemory.lost && !w.blind)
  {
    hide WorldOk, After, RunAllowed, AddMinutes, Rising, Times, AllCounted;
    FreshOk(slots, lanes);
    RunOk(Fresh(slots, lanes), es);
    WorldCounts(After(Fresh(slots, lanes), es));
  }

  // ---- Runs whose reloads read what is due ----

  // No reload of the run fails to read minutes that are due.
  predicate AllRead(w: World, es: seq<Event>)
    requires RunAllowed(w, es)
    decreases |es|
  {
    es == [] || (!(es[0].Open? && w.totals.None? && Blinds(w, es[0].since, es[0].read)) && AllRead(Next(w, es[0]), es[1..]))
  }

  predicate Sighted(w: World) {
    !w.inFile.lost && !w.inMemory.lost && !w.blind
  }

  lemma SightedNext(w: World, e: Event)
    requires Allowed(w, e) && Sighted(w) && !(e.Open? && w.totals.None? && Blinds(w, e.since, e.read))
    ensures Sighted(Next(w, e))
  {
    hide Counted, PutMinute, LogOk, Loaded, Pending, Found, Blinds;
  }

  lemma {:induction false} SightedRun(w: World, es: seq<Event>)
    requires RunAllowed(w, es) && Sighted(w) && AllRead(w, es)
    ensures Sighted(After(w, es))
    decreases |es|
  {
    hide Allowed, Next, Sighted, Blinds;
    if es != [] {
      SightedNext(w, es[0]);
      SightedRun(Next(w, es[0]), es[1..]);
    }
  }

  // Exactly once: if every reload can read the minutes that are due, the counters are those of
  // adding every minute that reached the ring since counting began, one time each, in order.
  lemma ExactlyOnce(slots: nat, lanes: nat, es: seq<Event>)
    requires slots > 0 && RunAllowed(Fresh(slots, lanes), es)
    ensures var w := After(Fresh(slots, lanes), es);
      AllRead(Fresh(slots, lanes), es) && w.totals.Some? ==> w.totals.value.rows == AddMinutes(map[], From(w.log, w.totals.value.since))
  {
    hide WorldOk, After, RunAllowed, AddMinutes, From, AllRead, Rising, Times, AllCounted;
    FreshOk(slots, lanes);
    var w := After(Fresh(slots, lanes), es);
    RunOk(Fresh(slots, lanes), es);
    if AllRead(Fresh(slots, lanes), es) && w.totals.Some? {
      SightedRun(Fresh(slots, lanes), es);
      WorldCounts(w);
    }
  }

  // ---- Minutes lost ----

  predicate Losing(w: World) {
    w.file.Some? && w.inFile.lost && (w.totals.Some? ==> w.inMemory.lost)
  }

  lemma LosingNext(w: World, e: Event)
    requires Allowed(w, e) && Losing(w)
    ensures Losing(Next(w, e))
  {
    hide Counted, PutMinute, LogOk, Loaded, Pending, Found, Blinds;
  }

  lemma {:induction false} LosingRun(w: World, es: seq<Event>)
    requires RunAllowed(w, es) && Losing(w)
    ensures Losing(After(w, es))
    decreases |es|
  {
    hide Allowed, Next, Losing;
    if es != [] {
      LosingNext(w, es[0]);
      LosingRun(Next(w, es[0]), es[1..]);
    }
  }

  // A reload that could not read a minute due, and then a minute counted and saved: some minute
  // that reached the ring is left out of the counters for good, whatever comes after.
  lemma LostForGood(w: World, since: int, saved: bool, m: Minute, es: seq<Event>)
    requires WorldOk(w) && w.totals.None? && Blinds(w, since, false)
    requires RunAllowed(w, [Open(since, saved, false), Write(m, Done)] + es) && m.ts > Base(w, since).through
    ensures var v := After(w, [Open(since, saved, false), Write(m, Done)] + es);
      v.totals.Some? ==> !AllCounted(v.inMemory.minutes, v.log, v.totals.value.since)
  {
    hide WorldOk, Allowed, PutMinute, AllCounted, AddMinutes, AddRecs, Pending, Rising, Times;
    var fs := [Open(since, saved, false), Write(m, Done)] + es;
    var w1 := Next(w, fs[0]);
    assert fs[1..][0] == fs[1] && fs[1..][1..] == es;
    assert RunAllowed(w1, fs[1..]);
    var w2 := Next(w1, fs[1]);
    assert After(w, fs) == After(w1, fs[1..]) == After(w2, es);
    assert Losing(w2);
    LosingRun(w2, es);
    RunOk(w, fs);
    if After(w2, es).totals.Some? { WorldCounts(After(w2, es)); }
  }

  lemma {:induction false} FromGrows(a: seq<Minute>, b: seq<Minute>, since: int) returns (more: seq<Minute>)
    requires a <= b
    ensures From(b, since) == From(a, since) + more
  {
    if |a| == |b| {
      assert a == b;
      more := [];
    } else {
      var init := b[..|b| - 1];
      assert a <= init;
      more := FromGrows(a, init, since);
      if b[|b| - 1].ts > since - 60 { more := more + [b[|b| - 1]]; }
    }
  }

  // Counters never fall while since stays the same, if every reload can read what is due.
  lemma CountersGrow(slots: nat, lanes: nat, es: seq<Event>, fs: seq<Event>)
    requires slots > 0 && RunAllowed(Fresh(slots, lanes), es) && RunAllowed(After(Fresh(slots, lanes), es), fs)
    requires AllRead(Fresh(slots, lanes), es) && AllRead(After(Fresh(slots, lanes), es), fs)
    requires var v := After(Fresh(slots, lanes), es);
      var w := After(v, fs);
      v.totals.Some? && w.totals.Some? && v.totals.value.since == w.totals.value.since
    ensures var v := After(Fresh(slots, lanes), es);
      Grown(v.totals.value.rows, After(v, fs).totals.value.rows)
  {
    hide WorldOk, After, RunAllowed, AddMinutes, From, Grown, AllRead, Rising, Times, AllCounted;
    FreshOk(slots, lanes);
    RunOk(Fresh(slots, lanes), es);
    SightedRun(Fresh(slots, lanes), es);
    var v := After(Fresh(slots, lanes), es);
    RunOk(v, fs);
    SightedRun(v, fs);
    var w := After(v, fs);
    var since := v.totals.value.since;
    WorldCounts(v);
    WorldCounts(w);
    var more := FromGrows(v.log, w.log, since);
    AddMinutesConcat(map[], From(v.log, since), more);
    AddMinutesGrows(map[], From(v.log, since));
    AddMinutesGrows(v.totals.value.rows, more);
  }
}

/**
 The counters as they are kept in files: the totals as text, with the clients' names from the
 table of names. Every run of the two files together is a run of the counters, and what is proved
 of those holds of the files.
 */
module CounterFiles {
  import opened Options
  import opened ClientTotals
  import opened TotalsText
  import C = CounterRuns
  import N = NameTable

  // The two files, and what the counters' run has besides them; its own totals file is never looked at.
  datatype Files = Files(run: C.World, text: Option<string>, table: N.Table)

  datatype Event = Naming(name: N.Event) | Counting(count: C.Event, order: seq<nat>)

  function NamesOf(f: Files): seq<string> {
    N.Lines(f.table.file)
  }

  // The counters as a reader of the files finds them.
  function Value(f: Files): C.World {
    f.run.(file := if f.text.Some? then Parse(f.text.value, NamesOf(f)) else None)
  }

  // ---- Steps ----

  predicate Small(rows: Rows) {
    forall k :: k in rows ==> rows[k].busy < 0x1_0000_0000_0000_0000 && rows[k].tokens < 0x1_0000_0000_0000_0000
  }

  predicate KnownClient(k: nat, names: seq<string>) {
    k == 0 || k < |names|
  }

  predicate KnownClients(recs: Records, names: seq<string>) {
    forall i :: 0 <= i < |recs| ==> KnownClient(recs[i].rec.client, names)
  }

  // Names are a node's client names, records are of clients that have an index, counters stay
  // below 2^64, and a save lists every client once.
  predicate Allowed(f: Files, e: Event) {
    match e
    case Naming(x) => x.Index? && x.name != "" ==> ValidNodeName(x.name)
    case Counting(x, order) =>
      && C.Allowed(Value(f), x)
      && (x.Write? ==> KnownClients(x.m.recs, NamesOf(f)))
      && var w := C.Next(Value(f), x);
      && (w.totals.Some? ==> Small(w.totals.value.rows))
      && (w.file.Some? ==> Small(w.file.value.rows) && Lists(order, w.file.value.rows))
  }

  function Next(f: Files, e: Event): Files
    requires Allowed(f, e)
  {
    match e
    case Naming(x) => f.(table := N.Next(f.table, x))
    case Counting(x, order) =>
      var w := C.Next(Value(f), x);
      var text := if w.file.None? || w.file == Value(f).file then f.text else Some(Render(w.file.value, NamesOf(f), order));
      Files(w, text, f.table)
  }

  // ---- What every run keeps ----

  // Every name but the first is a node's.
  predicate NodeNames(names: seq<string>) {
    forall k :: 0 < k < |names| ==> ValidNodeName(names[k])
  }

  predicate KnownRows(rows: Rows, names: seq<string>) {
    Small(rows) && RowsOk(rows) && forall k :: k in rows ==> KnownClient(k, names)
  }

  // The text is a listing of the totals t.
  predicate Listing(text: string, names: seq<string>, t: Totals, order: seq<nat>) {
    Lists(order, t.rows) && KnownRows(t.rows, names) && text == Render(t, names, order)
  }

  ghost predicate Holds(text: string, names: seq<string>) {
    exists t, order :: Listing(text, names, t, order)
  }

  predicate KnownLog(log: seq<Minute>, names: seq<string>) {
    forall i :: 0 <= i < |log| ==> KnownClients(log[i].recs, names)
  }

  ghost predicate FilesOk(f: Files) {
    && N.TableOk(f.table) && NodeNames(NamesOf(f)) && C.WorldOk(Value(f)) && KnownLog(f.run.log, NamesOf(f))
    && (f.text.Some? ==> Holds(f.text.value, NamesOf(f)))
    && (f.run.totals.Some? ==> KnownRows(f.run.totals.value.rows, NamesOf(f)))
  }

  lemma RowsNamed(t: Totals, names: seq<string>)
    requires KnownRows(t.rows, names) && NodeNames(names) && N.Distinct(names)
    ensures Named(t, names) && forall k :: k in t.rows && k != 0 ==> ValidNodeName(NameOf(names, k))
  {
    hide ValidNodeName, ValidClientName, N.Find;
    forall k | k in t.rows ensures RowOk(t.rows[k])
      ensures k != 0 ==> k < |names| && ValidNodeName(names[k]) && ValidClientName(names[k]) && N.Find(names, names[k]) == Some(k)
    {
      if k != 0 {
        NodeNamesPlain(names[k]);
        N.FoundAt(names, k);
      }
    }
  }

  // What was saved reads back as it was.
  lemma TextReads(text: string, names: seq<string>, t: Totals, order: seq<nat>)
    requires Listing(text, names, t, order) && NodeNames(names) && N.Distinct(names)
    ensures Parse(text, names) == Some(t)
  {
    hide Named, Parse, Render, ValidNodeName;
    RowsNamed(t, names);
    NodeNamesRead(t, names, order);
  }

  lemma {:induction false} SameLines(t: Totals, names: seq<string>, more: seq<string>, order: seq<nat>)
    requires (forall k :: k in order ==> k in t.rows && KnownClient(k, names)) && names <= more
    ensures RowLines(t, names, order) == RowLines(t, more, order)
  {
    hide RowLine;
    if order != [] {
      var init := order[..|order| - 1];
      assert order[|order| - 1] in order && forall k :: k in init ==> k in order;
      SameLines(t, names, more, init);
    }
  }

  // More names change nothing that was saved.
  lemma MoreNames(text: string, names: seq<string>, more: seq<string>, t: Totals, order: seq<nat>)
    requires Listing(text, names, t, order) && names <= more
    ensures Listing(text, more, t, order)
  {
    SameLines(t, names, more, order);
  }

  // ---- A step of the table ----

  lemma NodePlain(s: string)
    requires ValidNodeName(s)
    ensures N.Plain(s)
  {
  }

  lemma EmptyPlain()
    ensures N.Plain("")
  {
  }

  lemma NamingOk(f: Files, x: N.Event)
    requires FilesOk(f) && Allowed(f, Naming(x))
    ensures FilesOk(Next(f, Naming(x))) && Value(Next(f, Naming(x))) == Value(f)
  {
    hide N.Lines, N.Next, ValidNodeName, Parse, C.WorldOk, N.TableOk, N.Plain, Listing;
    var f' := Next(f, Naming(x));
    var names, more := NamesOf(f), NamesOf(f');
    if x.Index? {
      if x.name == "" { EmptyPlain(); } else { NodePlain(x.name); }
    }
    N.NextOk(f.table, x);
    N.TableLines(f.table);
    N.LinesAdded(f.table, x);
    assert names <= more && NodeNames(more);
    TableDistinct(f.table);
    TableDistinct(f'.table);
    if f.text.Some? {
      var t, order :| Listing(f.text.value, names, t, order);
      MoreNames(f.text.value, names, more, t, order);
      TextReads(f.text.value, names, t, order);
      TextReads(f.text.value, more, t, order);
    }
    assert KnownLog(f.run.log, more) by { LogStaysKnown(f.run.log, names, more); }
  }

  lemma LogStaysKnown(log: seq<Minute>, names: seq<string>, more: seq<string>)
    requires KnownLog(log, names) && names <= more
    ensures KnownLog(log, more)
  {
  }

  lemma TableDistinct(t: N.Table)
    requires N.TableOk(t)
    ensures N.Distinct(N.Lines(t.file))
  {
    hide N.Lines;
  }

  // ---- A step of the counters ----

  lemma {:induction false} AddedKnown(rows: Rows, recs: Records, names: seq<string>)
    requires (forall k :: k in rows ==> KnownClient(k, names)) && KnownClients(recs, names)
    ensures forall k :: k in AddRecs(rows, recs) ==> KnownClient(k, names)
  {
    hide RoundWh;
    if recs != [] {
      AddedKnown(rows, recs[..|recs| - 1], names);
    }
  }

  lemma {:induction false} MinutesKnown(rows: Rows, ms: seq<Minute>, names: seq<string>)
    requires (forall k :: k in rows ==> KnownClient(k, names)) && KnownLog(ms, names)
    ensures forall k :: k in AddMinutes(rows, ms) ==> KnownClient(k, names)
  {
    hide AddRecs;
    if ms != [] {
      MinutesKnown(rows, ms[..|ms| - 1], names);
      AddedKnown(AddMinutes(rows, ms[..|ms| - 1]), ms[|ms| - 1].recs, names);
    }
  }

  lemma CountedKnown(t: Totals, m: Minute, names: seq<string>)
    requires KnownRows(t.rows, names) && KnownClients(m.recs, names) && Small(C.Counted(t, m).rows)
    ensures KnownRows(C.Counted(t, m).rows, names)
  {
    hide AddRecs, IsMilli;
    AddedKnown(t.rows, m.recs, names);
    AddRecsGrows(t.rows, m.recs);
  }

  lemma LoadedKnown(w: C.World, since: int, read: bool, names: seq<string>)
    requires C.WorldOk(w) && C.Allowed(w, C.Open(since, true, read)) && KnownLog(w.log, names)
    requires w.file.Some? ==> KnownRows(w.file.value.rows, names)
    requires Small(C.Loaded(w, since, read).rows)
    ensures KnownRows(C.Loaded(w, since, read).rows, names)
  {
    hide AddMinutes, IsMilli, Pending, Due, Unlapped, RingOk, KnownClients;
    var b := C.Base(w, since);
    C.BaseOk(w, since);
    C.BaseMark(w, since);
    RingLogOk(w.slots, w.lanes, w.log);
    PendingIsDue(w.slots, w.lanes, w.log, b.through);
    DueIs(w.log, w.lanes, b.through);
    var p := if read then Due(w.log, b.through) else [];
    forall i | 0 <= i < |p| ensures KnownClients(p[i].recs, names) {
      assert p[i] in p && p[i] in w.log;
    }
    MinutesKnown(b.rows, p, names);
    AddMinutesGrows(b.rows, p);
  }

  // The totals in the file and in memory stay known.
  lemma CountKnown(w: C.World, x: C.Event, names: seq<string>)
    requires C.WorldOk(w) && C.Allowed(w, x) && KnownLog(w.log, names) && (x.Write? ==> KnownClients(x.m.recs, names))
    requires w.file.Some? ==> KnownRows(w.file.value.rows, names)
    requires w.totals.Some? ==> KnownRows(w.totals.value.rows, names)
    requires var w' := C.Next(w, x);
      (w'.totals.Some? ==> Small(w'.totals.value.rows)) && (w'.file.Some? ==> Small(w'.file.value.rows))
    ensures var w' := C.Next(w, x);
      && KnownLog(w'.log, names)
      && (w'.file.Some? ==> KnownRows(w'.file.value.rows, names))
      && (w'.totals.Some? ==> KnownRows(w'.totals.value.rows, names))
      && (w.file.Some? ==> w'.file.Some?)
  {
    hide C.WorldOk, C.Loaded, C.LoadedTally, C.Blinds, C.Counted, C.CountedTally, KnownRows, KnownClients, PutMinute, LogOk, Pending, Unlapped, Small;
    match x
    case Open(since, saved, read) =>
      if w.totals.None? { LoadedKnown(w, since, read, names); }
    case Write(m, fate) =>
      if !fate.NotPut? && (C.Next(w, x).totals.Some? || C.Next(w, x).file != w.file) {
        CountedKnown(w.totals.value, m, names);
      }
    case Crash =>
  }

  lemma CountingOk(f: Files, x: C.Event, order: seq<nat>)
    requires FilesOk(f) && Allowed(f, Counting(x, order))
    ensures FilesOk(Next(f, Counting(x, order))) && Value(Next(f, Counting(x, order))) == C.Next(Value(f), x)
  {
    hide N.Lines, N.Next, ValidNodeName, Parse, C.WorldOk, N.TableOk, Listing, C.Next, KnownRows, Render, KnownLog, KnownClients, C.Allowed, Small;
    var w, names := Value(f), NamesOf(f);
    var w' := C.Next(w, x);
    TableDistinct(f.table);
    if f.text.Some? {
      var t, o :| Listing(f.text.value, names, t, o);
      TextReads(f.text.value, names, t, o);
      ListingRows(f.text.value, names, t, o);
    }
    CountKnown(w, x, names);
    C.NextOk(w, x);
    var f' := Next(f, Counting(x, order));
    if w'.file.Some? && w'.file != w.file {
      IsListing(f'.text.value, names, w'.file.value, order);
      TextReads(f'.text.value, names, w'.file.value, order);
    }
  }

  lemma ListingRows(text: string, names: seq<string>, t: Totals, order: seq<nat>)
    requires Listing(text, names, t, order)
    ensures KnownRows(t.rows, names)
  {
    hide Render, KnownRows;
  }

  lemma IsListing(text: string, names: seq<string>, t: Totals, order: seq<nat>)
    requires Lists(order, t.rows) && KnownRows(t.rows, names) && text == Render(t, names, order)
    ensures Listing(text, names, t, order)
  {
    hide Render, KnownRows;
  }

  // ---- Runs ----

  predicate RunAllowed(f: Files, es: seq<Event>)
    decreases |es|
  {
    es == [] || (Allowed(f, es[0]) && RunAllowed(Next(f, es[0]), es[1..]))
  }

  function After(f: Files, es: seq<Event>): Files
    requires RunAllowed(f, es)
    decreases |es|
  {
    if es == [] then f else After(Next(f, es[0]), es[1..])
  }

  // The events of the counters among them.
  function CountEvents(es: seq<Event>): seq<C.Event>
    decreases |es|
  {
    if es == [] then [] else (if es[0].Counting? then [es[0].count] else []) + CountEvents(es[1..])
  }

  // A run of the two files is a run of the counters: whatever was saved is read back as it was,
  // however many names the table has got since.
  lemma {:induction false} FilesRefine(f: Files, es: seq<Event>)
    requires FilesOk(f) && RunAllowed(f, es)
    ensures FilesOk(After(f, es))
    ensures C.RunAllowed(Value(f), CountEvents(es)) && C.After(Value(f), CountEvents(es)) == Value(After(f, es))
    decreases |es|
  {
    hide FilesOk, Value, Next, Allowed, C.Next, C.Allowed;
    if es != [] {
      var e, f' := es[0], Next(f, es[0]);
      if e.Naming? {
        NamingOk(f, e.name);
        FilesRefine(f', es[1..]);
        assert CountEvents(es) == CountEvents(es[1..]);
      } else {
        CountingOk(f, e.count, e.order);
        FilesRefine(f', es[1..]);
        var cs := CountEvents(es);
        assert cs == [e.count] + CountEvents(es[1..]) && cs[0] == e.count && cs[1..] == CountEvents(es[1..]);
        AllowedCounts(f, e);
      }
    }
  }

  lemma AllowedCounts(f: Files, e: Event)
    requires Allowed(f, e) && e.Counting?
    ensures C.Allowed(Value(f), e.count)
  {
    hide C.Allowed;
  }

  function Fresh(slots: nat, lanes: nat): Files {
    Files(C.Fresh(slots, lanes), None, N.EMPTY)
  }

  lemma FreshOk(slots: nat, lanes: nat)
    requires slots > 0
    ensures FilesOk(Fresh(slots, lanes)) && Value(Fresh(slots, lanes)) == C.Fresh(slots, lanes)
  {
    hide C.WorldOk;
    N.EmptyOk();
    C.FreshOk(slots, lanes);
  }

  // Exactly once, through the files: after any run of writes, reloads, failed saves, crashes and
  // new names, with the totals read back from their text and the names from theirs, the counters
  // are those of adding every minute that reached the ring since counting began, one time each, if
  // every reload could read the minutes that were due.
  lemma FilesCountOnce(slots: nat, lanes: nat, es: seq<Event>)
    requires slots > 0 && RunAllowed(Fresh(slots, lanes), es)
    ensures var f := After(Fresh(slots, lanes), es);
      && C.RunAllowed(C.Fresh(slots, lanes), CountEvents(es))
      && (C.AllRead(C.Fresh(slots, lanes), CountEvents(es)) && f.run.totals.Some? ==>
            f.run.totals.value.rows == AddMinutes(map[], C.From(f.run.log, f.run.totals.value.since)))
  {
    hide C.RunAllowed, C.After, FilesOk, C.From, AddMinutes, C.AllRead;
    FreshOk(slots, lanes);
    FilesRefine(Fresh(slots, lanes), es);
    C.ExactlyOnce(slots, lanes, CountEvents(es));
  }
}

/**
 The append-only table of names behind the small numbers in the records. A string is a string of
 bytes here, as in the file.
 */
module NameTable {
  import opened Options

  const MAX_NAMES: nat := 65535
  // The longest line the reader takes.
  const MAX_LINE: nat := 65535

  // ---- The file ----

  function Text(names: seq<string>): string {
    if names == [] then [] else Text(names[..|names| - 1]) + names[|names| - 1] + ['\n']
  }

  // The complete lines of a file, without a torn last one.
  function Lines(raw: string): seq<string>
    decreases |raw|
  {
    if raw == [] then []
    else if raw[|raw| - 1] == '\n' then
      var head := raw[..|raw| - 1];
      var n := LastLine(head);
      Lines(head[..n]) + [head[n..]]
    else Lines(raw[..|raw| - 1])
  }

  // Where the last line of s begins.
  function LastLine(s: string): (n: nat)
    ensures n <= |s| && '\n' !in s[n..] && (n > 0 ==> s[n - 1] == '\n')
  {
    if s == [] then 0
    else if s[|s| - 1] == '\n' then |s|
    else
      var n := LastLine(s[..|s| - 1]);
      assert s[n..] == s[..|s| - 1][n..] + [s[|s| - 1]];
      n
  }

  function TrimCR(s: string): string {
    if s != [] && s[|s| - 1] == '\r' then TrimCR(s[..|s| - 1]) else s
  }

  function TrimAll(ls: seq<string>): (r: seq<string>)
    ensures |r| == |ls|
  {
    if ls == [] then [] else TrimAll(ls[..|ls| - 1]) + [TrimCR(ls[|ls| - 1])]
  }

  predicate Readable(ls: seq<string>) {
    forall i :: 0 <= i < |ls| ==> |ls[i]| <= MAX_LINE
  }

  // The names a file opens with, if it opens.
  function Opens(raw: string): Option<seq<string>> {
    if Readable(Lines(raw)) then Some(TrimAll(Lines(raw))) else None
  }

  lemma LinesPush(raw: string, name: string)
    requires (raw != [] ==> raw[|raw| - 1] == '\n') && '\n' !in name
    ensures Lines(raw + name + ['\n']) == Lines(raw) + [name]
  {
    var s, head := raw + name + ['\n'], raw + name;
    assert s[..|s| - 1] == head;
    LastLineIs(raw, name);
    assert head[..|raw|] == raw && head[|raw|..] == name;
  }

  lemma {:induction false} LastLineIs(raw: string, name: string)
    requires (raw != [] ==> raw[|raw| - 1] == '\n') && '\n' !in name
    ensures LastLine(raw + name) == |raw|
  {
    var s := raw + name;
    if name == [] {
      assert s == raw;
    } else {
      assert s[|s| - 1] == name[|name| - 1] && name[|name| - 1] in name;
      assert s[..|s| - 1] == raw + name[..|name| - 1];
      LastLineIs(raw, name[..|name| - 1]);
    }
  }

  // A torn line adds none.
  lemma {:induction false} LinesTorn(raw: string, part: string)
    requires '\n' !in part
    ensures Lines(raw + part) == Lines(raw)
  {
    if part == [] {
      assert raw + part == raw;
    } else {
      var s := raw + part;
      assert s[|s| - 1] == part[|part| - 1] && part[|part| - 1] in part;
      assert s[..|s| - 1] == raw + part[..|part| - 1];
      LinesTorn(raw, part[..|part| - 1]);
    }
  }

  predicate NewlineFree(names: seq<string>) {
    forall i :: 0 <= i < |names| ==> '\n' !in names[i]
  }

  lemma {:induction false} LinesOfText(names: seq<string>)
    requires NewlineFree(names)
    ensures Lines(Text(names)) == names && (Text(names) != [] ==> Text(names)[|Text(names)| - 1] == '\n')
  {
    if names == [] {
    } else {
      hide Lines, Text;
      var init, last := names[..|names| - 1], names[|names| - 1];
      assert names == init + [last];
      LinesOfText(init);
      TextPush(init, last);
      LinesPush(Text(init), last);
    }
  }

  predicate EndsCR(s: string) {
    s != [] && s[|s| - 1] == '\r'
  }

  predicate Plain(s: string) {
    '\n' !in s && !EndsCR(s) && |s| <= MAX_LINE
  }

  predicate AllPlain(names: seq<string>) {
    forall i :: 0 <= i < |names| ==> Plain(names[i])
  }

  lemma {:induction false} TrimAt(ls: seq<string>, i: nat)
    requires i < |ls|
    ensures TrimAll(ls)[i] == TrimCR(ls[i])
  {
    if i < |ls| - 1 { TrimAt(ls[..|ls| - 1], i); }
  }

  lemma {:induction false} TrimShorter(s: string)
    ensures |TrimCR(s)| <= |s| && (EndsCR(s) ==> |TrimCR(s)| < |s|) && (!EndsCR(s) ==> TrimCR(s) == s)
  {
    if EndsCR(s) { TrimShorter(s[..|s| - 1]); }
  }

  // A file of names without newlines opens with those names exactly when none ends in a carriage
  // return and none is longer than the reader takes.
  lemma OpensExactly(names: seq<string>)
    requires NewlineFree(names)
    ensures Opens(Text(names)) == Some(names) <==> AllPlain(names)
  {
    hide Lines, TrimAll, Text;
    LinesOfText(names);
    forall i | 0 <= i < |names| ensures TrimAll(names)[i] == names[i] <==> !EndsCR(names[i]) {
      TrimAt(names, i);
      TrimShorter(names[i]);
    }
    if AllPlain(names) {
      assert Readable(names);
      assert TrimAll(names) == names;
    }
  }

  // ---- Runs ----

  // The file, the names in memory while the process runs, and the indices handed out.
  datatype Table = Table(file: string, names: Option<seq<string>>, handed: set<(nat, string)>)

  // How adding a name goes: done; a write fails, the first of the two or the last; or the process
  // stops with a prefix of what it was adding in the file.
  datatype Fate = Done | FailsFirst | FailsLast | Stops(kept: nat)

  datatype Event = Open | Index(name: string, fate: Fate) | Crash

  // The last index a name stands at.
  function Find(names: seq<string>, s: string): (r: Option<nat>)
    ensures r.Some? ==> r.value < |names| && names[r.value] == s
    ensures r.None? ==> s !in names
  {
    if names == [] then None
    else if names[|names| - 1] == s then Some(|names| - 1)
    else
      assert names == names[..|names| - 1] + [names[|names| - 1]];
      Find(names[..|names| - 1], s)
  }

  // Index 0 is kept for no name.
  function Reserved(names: seq<string>): seq<string> {
    if names == [] then [""] else names
  }

  function Added(names: seq<string>, name: string): string {
    (if names == [] then "\n" else "") + name + ['\n']
  }

  function AddName(t: Table, names: seq<string>, name: string, fate: Fate): Table {
    if |Reserved(names)| >= MAX_NAMES then (if fate.Stops? then t.(names := None) else t) else
    match fate
    case Done => Table(t.file + Added(names, name), Some(Reserved(names) + [name]), t.handed + {(|Reserved(names)|, name)})
    case FailsFirst => t
    case FailsLast => t.(file := if names == [] then t.file + "\n" else t.file, names := Some(Reserved(names)))
    case Stops(kept) =>
      var a := Added(names, name);
      t.(file := t.file + a[..if kept < |a| then kept else |a|], names := None)
  }

  function Next(t: Table, e: Event): Table {
    match e
    case Open => if t.names.Some? then t else t.(file := Text(Lines(t.file)), names := Opens(t.file))
    case Crash => t.(names := None)
    case Index(name, fate) =>
      if t.names.None? then t
      else if name == "" then t.(handed := t.handed + {(0, "")})
      else
        var i := Find(t.names.value, name);
        if i.Some? then t.(handed := t.handed + {(i.value, name)})
        else AddName(t, t.names.value, name, fate)
  }

  predicate Distinct(names: seq<string>) {
    forall i, j :: 0 <= i < j < |names| ==> names[i] != names[j]
  }

  predicate HandedOk(handed: set<(nat, string)>, names: seq<string>) {
    forall h :: h in handed ==> h == (0, "") || (h.0 < |names| && names[h.0] == h.1)
  }

  // The lines of the file are the table: while the process runs, the file is exactly they.
  predicate TableOk(t: Table) {
    var names := Lines(t.file);
    && AllPlain(names) && Distinct(names) && (names != [] ==> names[0] == "") && HandedOk(t.handed, names)
    && (t.names.Some? ==> t.names.value == names && t.file == Text(names))
  }

  lemma AddedLines(names: seq<string>, name: string)
    requires NewlineFree(names) && '\n' !in name
    ensures Text(names) + Added(names, name) == Text(Reserved(names) + [name])
    ensures names == [] ==> Text(names) + "\n" == Text([""])
    ensures names != [] ==> Reserved(names) == names
  {
    var r := Reserved(names);
    assert (r + [name])[..|r|] == r;
    if names == [] {
      assert Text([""]) == Text([]) + "" + ['\n'] by { assert [""][..0] == []; }
      assert Text(names) + Added(names, name) == "\n" + name + ['\n'];
    } else {
      assert Text(names) + Added(names, name) == Text(names) + name + ['\n'];
    }
  }

  // What a stop leaves is the table as it was or with the line for no name, and with the name's line
  // exactly if all of it was written.
  lemma StopLines(names: seq<string>, name: string, k: nat)
    requires NewlineFree(names) && '\n' !in name && k <= |Added(names, name)|
    ensures var ls := Lines(Text(names) + Added(names, name)[..k]);
      if k == |Added(names, name)| then ls == Reserved(names) + [name] else ls == names || ls == Reserved(names)
  {
    hide Lines, Text;
    var a, t := Added(names, name), Text(names);
    LinesOfText(names);
    AddedLines(names, name);
    if k == |a| {
      assert a[..k] == a;
      LinesOfText(Reserved(names) + [name]);
    } else if names != [] {
      assert '\n' !in a[..k] by { assert a[..k] == name[..k]; }
      LinesTorn(t, a[..k]);
    } else if k == 0 {
      assert t + a[..k] == t;
    } else {
      assert a[..k] == "\n" + name[..k - 1];
      assert t + a[..k] == (t + "\n") + name[..k - 1];
      LinesOfText([""]);
      LinesTorn(t + "\n", name[..k - 1]);
    }
  }

  lemma DistinctPush(names: seq<string>, name: string)
    requires Distinct(names) && name !in names && name != "" && AllPlain(names) && Plain(name)
    ensures Distinct(Reserved(names)) && Distinct(Reserved(names) + [name])
    ensures AllPlain(Reserved(names)) && AllPlain(Reserved(names) + [name])
  {
    forall i | 0 <= i < |names| ensures names[i] != name { assert names[i] in names; }
  }

  lemma HandedGrow(handed: set<(nat, string)>, names: seq<string>, more: seq<string>)
    requires HandedOk(handed, names) && names <= more
    ensures HandedOk(handed, more)
  {
  }

  lemma AddNameOk(t: Table, names: seq<string>, name: string, fate: Fate)
    requires TableOk(t) && t.names == Some(names) && name !in names && name != "" && Plain(name)
    ensures TableOk(AddName(t, names, name, fate)) && Lines(t.file) <= Lines(AddName(t, names, name, fate).file)
  {
    hide Lines, Text, Plain;
    PlainNewlineFree(names);
    PlainNewlineFree([name]);
    assert '\n' !in [name][0];
    LinesOfText(names);
    AddedLines(names, name);
    DistinctPush(names, name);
    PlainNewlineFree(Reserved(names));
    PlainNewlineFree(Reserved(names) + [name]);
    LinesOfText(Reserved(names));
    LinesOfText(Reserved(names) + [name]);
    HandedGrow(t.handed, names, Reserved(names));
    HandedGrow(t.handed, names, Reserved(names) + [name]);
    if fate.Stops? {
      var a := Added(names, name);
      StopLines(names, name, if fate.kept < |a| then fate.kept else |a|);
    }
  }

  lemma PlainNewlineFree(names: seq<string>)
    ensures AllPlain(names) ==> NewlineFree(names)
    ensures |names| == 1 && Plain(names[0]) ==> NewlineFree(names)
  {
  }

  lemma NextOk(t: Table, e: Event)
    requires TableOk(t) && (e.Index? ==> Plain(e.name))
    ensures TableOk(Next(t, e)) && Lines(t.file) <= Lines(Next(t, e).file)
  {
    hide Lines, Text, Plain, AddName, Opens;
    var names := Lines(t.file);
    PlainNewlineFree(names);
    LinesOfText(names);
    if e.Open? {
      if t.names.None? { OpensTo(t.file); }
    } else if e.Index? && t.names.Some? && e.name != "" && Find(names, e.name).None? {
      AddNameOk(t, names, e.name, e.fate);
    }
  }

  lemma OpensTo(raw: string)
    requires AllPlain(Lines(raw))
    ensures Opens(raw) == Some(Lines(raw))
  {
    hide Lines, Text;
    var ls := Lines(raw);
    forall i | 0 <= i < |ls| ensures TrimAll(ls)[i] == ls[i] {
      TrimAt(ls, i);
      TrimShorter(ls[i]);
    }
    assert TrimAll(ls) == ls;
  }

  function After(t: Table, es: seq<Event>): Table {
    if es == [] then t else Next(After(t, es[..|es| - 1]), es[|es| - 1])
  }

  predicate PlainRun(es: seq<Event>) {
    forall i :: 0 <= i < |es| && es[i].Index? ==> Plain(es[i].name)
  }

  lemma {:induction false} RunOk(es: seq<Event>, n: nat)
    requires PlainRun(es) && n <= |es|
    ensures var a, b := After(Table([], None, {}), es[..n]), After(Table([], None, {}), es);
      TableOk(a) && TableOk(b) && Lines(a.file) <= Lines(b.file)
    decreases |es|
  {
    hide Plain, TableOk, Lines, Next;
    if |es| == 0 {
      assert es[..n] == es;
      EmptyOk();
    } else {
      var init := es[..|es| - 1];
      if n < |es| {
        RunOk(init, n);
        assert init[..n] == es[..n];
      } else {
        RunOk(init, |init|);
        assert es[..n] == es;
      }
      NextOk(After(Table([], None, {}), init), es[|es| - 1]);
    }
  }

  lemma EmptyOk()
    ensures TableOk(Table([], None, {}))
  {
  }

  // Over every run of plain names, with failures and crashes that leave any part of a line: an
  // index once handed out stands for its name ever after, in memory and in the file, and no two
  // names share one.
  lemma PlainStable(es: seq<Event>, n: nat, h: (nat, string))
    requires PlainRun(es) && n <= |es| && h in After(Table([], None, {}), es[..n]).handed && h.1 != ""
    ensures var t := After(Table([], None, {}), es);
      && h.0 < |Lines(t.file)| && Lines(t.file)[h.0] == h.1
      && (t.names.Some? ==> h.0 < |t.names.value| && t.names.value[h.0] == h.1 && Find(t.names.value, h.1) == Some(h.0))
  {
    hide Plain, Lines, Next, After, Text;
    RunOk(es, n);
    var t := After(Table([], None, {}), es);
    if t.names.Some? {
      FoundAt(t.names.value, h.0);
    }
  }

  lemma FoundAt(names: seq<string>, i: nat)
    requires Distinct(names) && i < |names|
    ensures Find(names, names[i]) == Some(i)
  {
    hide Find;
    var r := Find(names, names[i]);
    assert names[i] in names;
  }

  lemma PlainNoSharing(es: seq<Event>, g: (nat, string), h: (nat, string))
    requires PlainRun(es)
    requires var t := After(Table([], None, {}), es); g in t.handed && h in t.handed && g.1 != "" && h.1 != ""
    ensures g.0 == h.0 <==> g.1 == h.1
  {
    hide Plain, Lines, Next, After, Text;
    RunOk(es, |es|);
    assert es[..|es|] == es;
  }

  // ---- Runs of any names without newlines ----

  const EMPTY: Table := Table([], None, {})

  predicate NewlineFreeRun(es: seq<Event>) {
    forall i :: 0 <= i < |es| && es[i].Index? ==> '\n' !in es[i].name
  }

  // The index a call returns.
  function Result(t: Table, e: Event): Option<nat> {
    if !e.Index? || t.names.None? then None
    else if e.name == "" then Some(0)
    else
      var names := t.names.value;
      var i := Find(names, e.name);
      if i.Some? then i
      else if e.fate.Done? && |Reserved(names)| < MAX_NAMES then Some(|Reserved(names)|) else None
  }

  // A name that is not in the table, and whose line is written, gets the next index, exactly while there
  // are fewer than 65535 names, the one for no name counted.
  lemma IndexGiven(t: Table, name: string)
    requires t.names.Some? && name != "" && name !in t.names.value
    ensures var n := if t.names.value == [] then 1 else |t.names.value|;
      Result(t, Index(name, Done)) == if n < 65535 then Some(n) else None
  {
    hide Find;
  }

  // A returned index is recorded as handed out.
  lemma ResultHanded(t: Table, e: Event)
    requires Result(t, e).Some?
    ensures (Result(t, e).value, e.name) in Next(t, e).handed
    ensures e.name != "" ==>
      var names := Next(t, e).names; names.Some? && Result(t, e).value < |names.value| && names.value[Result(t, e).value] == e.name
  {
  }

  lemma {:induction false} TrimTwice(s: string)
    ensures TrimCR(TrimCR(s)) == TrimCR(s) && !EndsCR(TrimCR(s))
  {
    if EndsCR(s) { TrimTwice(s[..|s| - 1]); }
  }

  // A name in memory is its line, as written or as read back.
  predicate Reads(line: string, name: string) {
    name == line || name == TrimCR(line)
  }

  // While the process runs, the names in memory are the lines of the file, each as written or as
  // read back.
  predicate LinesOk(t: Table) {
    var ls := Lines(t.file);
    && NewlineFree(ls)
    && (t.names.Some? ==>
          && t.file == Text(ls) && |t.names.value| == |ls|
          && forall i :: 0 <= i < |ls| ==> Reads(ls[i], t.names.value[i]))
  }

  lemma AddNameLines(t: Table, names: seq<string>, name: string, fate: Fate)
    requires LinesOk(t) && t.names == Some(names) && '\n' !in name
    ensures var t', ls, ls' := AddName(t, names, name, fate), Lines(t.file), Lines(AddName(t, names, name, fate).file);
      && LinesOk(t') && ls <= ls' && (t'.names.Some? ==> names <= t'.names.value)
  {
    hide Lines, Text, TrimCR;
    var ls := Lines(t.file);
    LinesOfText(ls);
    AddedLines(ls, name);
    assert (names == [] <==> ls == []) && Added(names, name) == Added(ls, name);
    LinesOfText(Reserved(ls));
    LinesOfText(Reserved(ls) + [name]);
    if fate.Stops? {
      var a := Added(ls, name);
      StopLines(ls, name, if fate.kept < |a| then fate.kept else |a|);
    }
  }

  lemma NextLines(t: Table, e: Event)
    requires LinesOk(t) && (e.Index? ==> '\n' !in e.name)
    ensures LinesOk(Next(t, e)) && Lines(t.file) <= Lines(Next(t, e).file)
    ensures t.names.Some? && Next(t, e).names.Some? ==> t.names.value <= Next(t, e).names.value
    ensures t.names.None? && Next(t, e).names.Some? ==> e.Open? && Next(t, e).names.value == TrimAll(Lines(t.file))
  {
    hide Lines, Text, TrimCR, AddName;
    var ls := Lines(t.file);
    LinesOfText(ls);
    if e.Open? && t.names.None? {
      if Readable(ls) {
        forall i | 0 <= i < |ls| ensures TrimAll(ls)[i] == TrimCR(ls[i]) {
          TrimAt(ls, i);
        }
      }
    } else if e.Index? && t.names.Some? && e.name != "" && Find(t.names.value, e.name).None? {
      AddNameLines(t, t.names.value, e.name, e.fate);
    }
  }

  lemma {:induction false} RunLines(es: seq<Event>)
    requires NewlineFreeRun(es)
    ensures LinesOk(After(EMPTY, es))
  {
    hide Next, LinesOk;
    if es == [] {
      EmptyLines();
    } else {
      RunLines(es[..|es| - 1]);
      NextLines(After(EMPTY, es[..|es| - 1]), es[|es| - 1]);
    }
  }

  lemma EmptyLines()
    ensures LinesOk(EMPTY)
  {
  }

  // The table was opened again at or after event n.
  predicate Reopened(es: seq<Event>, n: nat) {
    var k := |es| - 1;
    k >= n && (Reopened(es[..k], n) || (es[k].Open? && After(EMPTY, es[..k]).names.None?))
  }

  // Index i was handed out for name: its line is name's, and in memory it is name until the table
  // is opened again, and name without its carriage returns from then on.
  predicate Standing(t: Table, i: nat, name: string, reopened: bool) {
    var ls := Lines(t.file);
    && i < |ls| && TrimCR(ls[i]) == TrimCR(name)
    && (t.names.Some? ==> i < |t.names.value| && t.names.value[i] == if reopened then TrimCR(name) else name)
  }

  lemma StandingStep(t: Table, e: Event, i: nat, name: string, reopened: bool)
    requires LinesOk(t) && (e.Index? ==> '\n' !in e.name) && Standing(t, i, name, reopened)
    ensures Standing(Next(t, e), i, name, reopened || (e.Open? && t.names.None?))
  {
    hide Next, TrimCR, Lines, TrimAll, Text;
    NextLines(t, e);
    var ls, ls' := Lines(t.file), Lines(Next(t, e).file);
    assert ls'[i] == ls[i];
    TrimAt(ls, i);
    if t.names.Some? && !reopened && e.Open? {
      assert Next(t, e) == t by { OpenOnce(t); }
    }
  }

  lemma OpenOnce(t: Table)
    requires t.names.Some?
    ensures Next(t, Open) == t
  {
  }

  lemma HandedStanding(t: Table, e: Event)
    requires LinesOk(t) && e.Index? && '\n' !in e.name && e.name != "" && Result(t, e).Some?
    ensures Standing(Next(t, e), Result(t, e).value, e.name, false)
  {
    hide Next, TrimCR, Lines, Text, Result;
    NextLines(t, e);
    ResultHanded(t, e);
    var t' := Next(t, e);
    var ls, i := Lines(t'.file), Result(t, e).value;
    assert Reads(ls[i], t'.names.value[i]);
    TrimTwice(ls[i]);
  }

  lemma {:induction false} RunStands(es: seq<Event>, n: nat, i: nat)
    requires NewlineFreeRun(es) && n < |es| && es[n].Index? && es[n].name != "" && Result(After(EMPTY, es[..n]), es[n]) == Some(i)
    ensures Standing(After(EMPTY, es), i, es[n].name, Reopened(es, n + 1))
  {
    hide Next, LinesOk, Standing, Result;
    var k := |es| - 1;
    RunLines(es[..k]);
    if n == k {
      HandedStanding(After(EMPTY, es[..k]), es[k]);
    } else {
      assert es[..k][..n] == es[..n];
      RunStands(es[..k], n, i);
      StandingStep(After(EMPTY, es[..k]), es[k], i, es[n].name, Reopened(es[..k], n + 1));
    }
  }

  // Over every run of names without newlines, with failures and crashes that leave any part of a
  // line: an index handed out stands for its name if and only if the name does not end in a
  // carriage return or the table has not been opened again since.
  lemma Stable(es: seq<Event>, n: nat, i: nat)
    requires NewlineFreeRun(es) && n < |es| && es[n].Index? && es[n].name != "" && Result(After(EMPTY, es[..n]), es[n]) == Some(i)
    ensures var t := After(EMPTY, es);
      t.names.Some? ==> i < |t.names.value| && (t.names.value[i] == es[n].name <==> !EndsCR(es[n].name) || !Reopened(es, n + 1))
  {
    hide Next, Lines, Result, After, Reopened;
    RunStands(es, n, i);
    TrimShorter(es[n].name);
    TrimTwice(es[n].name);
  }

  // Two calls that return one index asked for one name if and only if the first name does not end
  // in a carriage return or the table was not opened again in between.
  lemma NoSharing(es: seq<Event>, m: nat, n: nat, i: nat)
    requires NewlineFreeRun(es) && m < n < |es| && es[m].Index? && es[n].Index? && es[m].name != "" && es[n].name != ""
    requires Result(After(EMPTY, es[..m]), es[m]) == Some(i) && Result(After(EMPTY, es[..n]), es[n]) == Some(i)
    ensures es[m].name == es[n].name <==> !EndsCR(es[m].name) || !Reopened(es[..n], m + 1)
  {
    hide Next, Lines, After, Reopened;
    assert es[..n][..m] == es[..m];
    Stable(es[..n], m, i);
  }

  // ---- When the table opens again ----

  // The call puts the whole line of its name into the file, whether or not it gets to return.
  predicate Writes(t: Table, e: Event) {
    && e.Index? && t.names.Some? && e.name != ""
    && var names := t.names.value;
    && Find(names, e.name).None? && |Reserved(names)| < MAX_NAMES
    && (e.fate.Done? || (e.fate.Stops? && e.fate.kept >= |Added(names, e.name)|))
  }

  // What a call adds to the lines: the one for no name at most, and the name exactly if it writes it.
  lemma LinesAdded(t: Table, e: Event)
    requires LinesOk(t) && (e.Index? ==> '\n' !in e.name)
    ensures var ls, ls' := Lines(t.file), Lines(Next(t, e).file);
      if Writes(t, e) then ls' == Reserved(ls) + [e.name] else ls' == ls || ls' == Reserved(ls)
  {
    hide Lines, Text, TrimCR, Find;
    var ls := Lines(t.file);
    LinesOfText(ls);
    if e.Index? && t.names.Some? && e.name != "" && Find(t.names.value, e.name).None? {
      var names := t.names.value;
      assert (names == [] <==> ls == []) && Added(names, e.name) == Added(ls, e.name) && |Reserved(names)| == |Reserved(ls)|;
      AddedLines(ls, e.name);
      LinesOfText(Reserved(ls));
      LinesOfText(Reserved(ls) + [e.name]);
      if e.fate.Stops? {
        var a := Added(ls, e.name);
        StopLines(ls, e.name, if e.fate.kept < |a| then e.fate.kept else |a|);
      }
    }
  }

  lemma TableLines(t: Table)
    requires TableOk(t)
    ensures LinesOk(t)
  {
    hide Lines, Text, TrimCR;
    PlainNewlineFree(Lines(t.file));
  }

  // No name written by the run is longer than the reader takes.
  predicate AllShort(es: seq<Event>) {
    var k := |es| - 1;
    k >= 0 ==> AllShort(es[..k]) && (Writes(After(EMPTY, es[..k]), es[k]) ==> |es[k].name| <= MAX_LINE)
  }

  lemma {:induction false} AllShortIs(es: seq<Event>)
    ensures AllShort(es) <==> forall k :: 0 <= k < |es| && Writes(After(EMPTY, es[..k]), es[k]) ==> |es[k].name| <= MAX_LINE
  {
    hide Writes, After;
    var n := |es| - 1;
    if n >= 0 {
      AllShortIs(es[..n]);
      assert forall k :: 0 <= k < n ==> es[..n][..k] == es[..k];
      assert es[..n + 1] == es;
    }
  }

  lemma {:induction false} ReadableRun(es: seq<Event>)
    requires NewlineFreeRun(es)
    ensures Readable(Lines(After(EMPTY, es).file)) <==> AllShort(es)
  {
    hide Lines, Next, Find, LinesOk;
    if es == [] {
      NoLines();
    } else {
      var k := |es| - 1;
      var t := After(EMPTY, es[..k]);
      RunLines(es[..k]);
      ReadableRun(es[..k]);
      LinesAdded(t, es[k]);
      ReadableMore(Lines(t.file), if es[k].Index? then es[k].name else "");
    }
  }

  lemma NoLines()
    ensures Lines([]) == []
  {
  }

  lemma ReadableMore(ls: seq<string>, name: string)
    ensures Readable(Reserved(ls)) <==> Readable(ls)
    ensures Readable(Reserved(ls) + [name]) <==> Readable(ls) && |name| <= MAX_LINE
  {
    var r := Reserved(ls);
    assert (r + [name])[|r|] == name;
    assert forall i :: 0 <= i < |r| ==> (r + [name])[i] == r[i];
  }

  // After any run of names without newlines, a closed table opens if and only if no call wrote the
  // whole line of a name longer than the reader takes.
  lemma OpensAgain(es: seq<Event>)
    requires NewlineFreeRun(es) && After(EMPTY, es).names.None?
    ensures After(EMPTY, es + [Open]).names.Some? <==>
      forall k :: 0 <= k < |es| && Writes(After(EMPTY, es[..k]), es[k]) ==> |es[k].name| <= 65535
  {
    hide Lines, Text, Writes, AllShort, TrimAll;
    assert (es + [Open])[..|es|] == es;
    ReadableRun(es);
    AllShortIs(es);
  }

  // Opening a closed table again gives an index its name back if and only if the name does not end
  // in a carriage return and no name written was too long.
  lemma StableReopened(es: seq<Event>, n: nat, i: nat)
    requires NewlineFreeRun(es) && n < |es| && es[n].Index? && es[n].name != "" && Result(After(EMPTY, es[..n]), es[n]) == Some(i)
    requires After(EMPTY, es).names.None?
    ensures var t := After(EMPTY, es + [Open]);
      t.names.Some? && i < |t.names.value| && t.names.value[i] == es[n].name <==>
        && !EndsCR(es[n].name)
        && forall k :: 0 <= k < |es| && Writes(After(EMPTY, es[..k]), es[k]) ==> |es[k].name| <= 65535
  {
    hide Lines, Next, After, Writes, Result, Reopened;
    var more := es + [Open];
    assert more[..|es|] == es && more[..n] == es[..n] && more[n] == es[n];
    OpensAgain(es);
    Stable(more, n, i);
    assert Reopened(more, n + 1) by { ReopenedLast(es, n + 1); }
  }

  lemma ReopenedLast(es: seq<Event>, n: nat)
    requires n <= |es| && After(EMPTY, es).names.None?
    ensures Reopened(es + [Open], n)
  {
    hide After;
    assert (es + [Open])[..|es|] == es;
  }

  // A name longer than the reader takes is given an index, and once the process has stopped the
  // table does not open again.
  lemma LongNameLost(name: string)
    requires '\n' !in name && |name| > 65535
    ensures var es := [Open, Index(name, Done), Crash, Open];
      && NewlineFreeRun(es) && Result(After(EMPTY, es[..1]), es[1]) == Some(1)
      && (1, name) in After(EMPTY, es).handed && After(EMPTY, es).names.None?
  {
    hide Lines, Text, Opens;
    var es := [Open, Index(name, Done), Crash, Open];
    var three := [Open, Index(name, Done), Crash];
    assert es == three + [Open] && es[..3] == three && three[..1] == es[..1] && es[..1] == [Open];
    EmptyOpens();
    assert [Open][..0] == [];
    var t1 := Table([], Some([]), {});
    assert After(EMPTY, [Open]) == t1;
    assert three[..2] == [Open, Index(name, Done)] && three[..2][..1] == [Open];
    assert Find([], name) == None && Writes(t1, es[1]);
    var t2 := After(EMPTY, three[..2]);
    assert t2 == Next(t1, Index(name, Done)) && (1, name) in t2.handed;
    assert After(EMPTY, three) == t2.(names := None);
    OpensAgain(three);
    assert three[1] == es[1];
    assert After(EMPTY, es).handed == t2.handed;
  }

  // The run that shares an index: a name ending in a carriage return, a restart, and the name
  // without it. Index 1 is handed out for both.
  const SHARED: seq<Event> := [Open, Index("a\r", Done), Crash, Open, Index("a", Done)]

  lemma CarriageReturnLost()
    ensures NewlineFreeRun(SHARED)
    ensures Result(After(EMPTY, SHARED[..1]), SHARED[1]) == Some(1) && Result(After(EMPTY, SHARED[..4]), SHARED[4]) == Some(1)
    ensures {(1, "a\r"), (1, "a")} <= After(EMPTY, SHARED).handed
  {
    hide Lines, Text, Opens, AddName, Find;
    var f := "\na\r\n";
    FirstName();
    assert SHARED[..3][..2] == SHARED[..2] && After(EMPTY, SHARED[..3]) == Table(f, None, {(1, "a\r")});
    var names := ["", "a\r"];
    AddedLines([], "a\r");
    assert Text([]) == [] by { EmptyText(); }
    assert Added([], "a\r") == f && Reserved([]) + ["a\r"] == names && [] + f == f;
    assert Text(names) == f;
    LinesOfText(names);
    ReadBack();
    assert SHARED[..4][..3] == SHARED[..3] && After(EMPTY, SHARED[..4]) == Table(f, Some(["", "a"]), {(1, "a\r")});
    assert SHARED[..5] == SHARED && SHARED[..5][..4] == SHARED[..4];
    assert Find(["", "a"], "a") == Some(1) by { FoundAt(["", "a"], 1); }
  }

  lemma FirstName()
    ensures Result(After(EMPTY, SHARED[..1]), SHARED[1]) == Some(1)
    ensures After(EMPTY, SHARED[..2]) == Table("\na\r\n", Some(["", "a\r"]), {(1, "a\r")})
  {
    hide Lines, Text, Opens;
    EmptyOpens();
    assert SHARED[..0] == [] && SHARED[..1][..0] == [];
    assert After(EMPTY, SHARED[..1]) == Table([], Some([]), {});
    assert Added([], "a\r") == "\na\r\n" && [] + "\na\r\n" == "\na\r\n";
    assert Reserved([]) + ["a\r"] == ["", "a\r"];
    assert SHARED[..2][..1] == SHARED[..1];
  }

  lemma EmptyText()
    ensures Text([]) == []
  {
  }

  lemma EmptyOpens()
    ensures Next(EMPTY, Open) == Table([], Some([]), {})
  {
  }

  lemma ReadBack()
    ensures Opens(Text(["", "a\r"])) == Some(["", "a"])
  {
    hide Lines, Text;
    var names := ["", "a\r"];
    LinesOfText(names);
    TrimAt(names, 0);
    TrimAt(names, 1);
    assert TrimCR("a\r") == "a" by { assert "a\r"[..1] == "a"; }
    assert TrimAll(names) == ["", "a"];
    assert Readable(names);
  }

  // ---- The table itself ----

  lemma LinesNewline(s: string)
    ensures Lines(s + ['\n']) == Lines(s[..LastLine(s)]) + [s[LastLine(s)..]]
  {
    hide LastLine;
    assert (s + ['\n'])[..|s|] == s;
  }

  lemma LastLineStep(s: string, c: char)
    ensures LastLine(s + [c]) == if c == '\n' then |s| + 1 else LastLine(s)
  {
    assert (s + [c])[..|s|] == s;
  }

  lemma LineStep(s: string, c: char)
    ensures Lines(s + [c]) == if c == '\n' then Lines(s) + [s[LastLine(s)..]] else Lines(s)
  {
    hide Lines, LastLine;
    if c == '\n' {
      var n := LastLine(s);
      LinesNewline(s);
      LinesTorn(s[..n], s[n..]);
      assert s[..n] + s[n..] == s;
    } else {
      LinesTorn(s, [c]);
    }
  }

  lemma TextPush(ls: seq<string>, l: string)
    ensures Text(ls + [l]) == Text(ls) + l + ['\n']
  {
    assert (ls + [l])[..|ls|] == ls;
  }

  // Cutting off the torn line leaves the text of the lines read.
  lemma {:induction false} TextOfLines(raw: string)
    ensures Text(Lines(raw)) == raw[..LastLine(raw)]
  {
    if raw == [] {
    } else {
      hide Lines, LastLine, Text;
      var s, c := raw[..|raw| - 1], raw[|raw| - 1];
      assert raw == s + [c];
      LineStep(s, c);
      LastLineStep(s, c);
      TextOfLines(s);
      var n := LastLine(s);
      if c == '\n' {
        TextPush(Lines(s), s[n..]);
        Whole(s, n, c);
      } else {
        assert raw[..n] == s[..n];
      }
    }
  }

  lemma Whole(s: string, n: nat, c: char)
    requires n <= |s|
    ensures s[..n] + s[n..] + [c] == s + [c] && (s + [c])[..|s| + 1] == s + [c]
  {
  }

  predicate Indexed(index: map<string, nat>, names: seq<string>) {
    && (forall s :: s in index ==> s in names && Find(names, s) == Some(index[s]))
    && (forall s :: s in names ==> s in index)
  }

  lemma IndexedAt(index: map<string, nat>, names: seq<string>, s: string)
    requires Indexed(index, names)
    ensures s in index <==> Find(names, s).Some?
    ensures s in index ==> Find(names, s) == Some(index[s])
  {
    hide Find;
    FindIn(names, s);
  }

  // One more character of the file.
  lemma ReadStep(s: string, c: char)
    ensures LastLine(s + [c]) == if c == '\n' then |s| + 1 else LastLine(s)
    ensures c != '\n' ==> Lines(s + [c]) == Lines(s)
    ensures c == '\n' ==>
      var line := s[LastLine(s)..];
      && TrimAll(Lines(s + [c])) == TrimAll(Lines(s)) + [TrimCR(line)]
      && (Readable(Lines(s + [c])) <==> Readable(Lines(s)) && |line| <= MAX_LINE)
  {
    hide Lines, LastLine, TrimAll, TrimCR, Readable;
    LineStep(s, c);
    LastLineStep(s, c);
    TrimPush(Lines(s), s[LastLine(s)..]);
  }

  lemma IndexedPush(index: map<string, nat>, names: seq<string>, s: string)
    requires Indexed(index, names)
    ensures Indexed(index[s := |names|], names + [s])
  {
    var more, index' := names + [s], index[s := |names|];
    assert more[..|names|] == names;
    forall x | x in index' ensures x in more && Find(more, x) == Some(index'[x]) {
      if x != s { assert x in names; }
    }
  }

  class Names {
    var file: string
    var live: bool
    var names: seq<string>
    var index: map<string, nat>
    ghost var handed: set<(nat, string)>

    ghost function View(): Table
      reads this
    {
      Table(file, if live then Some(names) else None, handed)
    }

    ghost predicate Valid()
      reads this
    {
      live ==> Indexed(index, names)
    }

    constructor ()
      ensures Valid() && View() == Table([], None, {})
    {
      file, live, names, index, handed := [], false, [], map[], {};
    }

    // Reads the file, cutting off a torn last line.
    method OpenFile() returns (ok: bool)
      requires !live && Valid()
      modifies this
      ensures Valid() && View() == Next(old(View()), Open) && ok == live
    {
      hide Lines, Text, TrimCR, TrimAll, LastLine, Indexed, Readable;
      var raw := file;
      var start := 0;
      ok, names, index := true, [], map[];
      NothingRead();
      for i := 0 to |raw|
        invariant file == old(file) && handed == old(handed) && !live
        invariant start == LastLine(raw[..i]) && ok == Readable(Lines(raw[..i]))
        invariant names == TrimAll(Lines(raw[..i])) && Indexed(index, names)
      {
        var s, c := raw[..i], raw[i];
        assert raw[..i + 1] == s + [c];
        ReadStep(s, c);
        if c == '\n' {
          var line := s[start..];
          ok := ok && |line| <= MAX_LINE;
          var name := TrimCR(line);
          IndexedPush(index, names, name);
          index := index[name := |names|];
          names := names + [name];
          start := i + 1;
        }
      }
      assert raw[..|raw|] == raw;
      TextOfLines(raw);
      file := raw[..start];
      live := ok;
    }

    // Writes one line and syncs it. A failure is cut back off; a stop leaves any part of it.
    method Append(name: string) returns (done: bool, stopped: bool, ghost kept: nat)
      modifies this`file
      ensures done ==> !stopped && file == old(file) + name + ['\n']
      ensures !done && !stopped ==> file == old(file)
      ensures stopped ==> !done && kept <= |name| + 1 && file == old(file) + (name + ['\n'])[..kept]
    {
      var line := name + ['\n'];
      var n :| 0 <= n <= |line|;
      kept := n;
      done, stopped := *, *;
      if done {
        stopped := false;
        file := file + line;
        assert file == old(file) + name + ['\n'];
      } else if stopped {
        file := file + line[..n];
      }
    }

    // The index of a name, adding it if it is new.
    method IndexOf(name: string) returns (r: Option<nat>, ghost fate: Fate)
      requires live && Valid()
      modifies this
      ensures Valid() && View() == Next(old(View()), Index(name, fate))
      ensures r.Some? ==> live && (r.value, name) in handed
    {
      hide Find, Indexed;
      fate, r := Done, None;
      if name == "" {
        handed := handed + {(0, "")};
        return Some(0), Done;
      }
      IndexedAt(index, names, name);
      if name in index {
        handed := handed + {(index[name], name)};
        return Some(index[name]), Done;
      }
      ghost var first, was := names, file;
      var done, stopped;
      ghost var kept;
      if |names| == 0 {
        done, stopped, kept := Append("");
        if stopped {
          live := false;
          StopFirst(was, name, kept);
          return None, Stops(kept);
        }
        if !done {
          return None, FailsFirst;
        }
        IndexedFirst();
        names, index := [""], map["" := 0];
      }
      if |names| >= MAX_NAMES {
        return;
      }
      done, stopped, kept := Append(name);
      if stopped {
        live := false;
        fate := Stops(if |first| == 0 then kept + 1 else kept);
        StopLast(was, first, name, kept);
        return;
      }
      if !done {
        return None, FailsLast;
      }
      IndexedPush(index, names, name);
      r := Some(|names|);
      handed := handed + {(|names|, name)};
      index := index[name := |names|];
      names := names + [name];
      assert file == was + Added(first, name);
    }
  }

  lemma NothingRead()
    ensures LastLine([]) == 0 && TrimAll(Lines([])) == [] && Readable(Lines([])) && Indexed(map[], [])
  {
  }

  lemma IndexedFirst()
    ensures Indexed(map["" := 0], [""])
  {
    assert Indexed(map[], []);
    IndexedPush(map[], [], "");
    assert [] + [""] == [""];
  }

  lemma TrimPush(ls: seq<string>, line: string)
    ensures TrimAll(ls + [line]) == TrimAll(ls) + [TrimCR(line)]
    ensures Readable(ls + [line]) <==> Readable(ls) && |line| <= MAX_LINE
  {
    assert (ls + [line])[..|ls|] == ls;
    if Readable(ls + [line]) {
      assert forall i :: 0 <= i < |ls| ==> (ls + [line])[i] == ls[i];
      assert (ls + [line])[|ls|] == line;
    }
  }

  lemma FindIn(names: seq<string>, s: string)
    ensures s in names <==> Find(names, s).Some?
  {
  }

  lemma StopFirst(was: string, name: string, kept: nat)
    requires kept <= 1
    ensures kept < |Added([], name)| && was + ("" + ['\n'])[..kept] == was + Added([], name)[..kept]
  {
    assert Added([], name) == ['\n'] + (name + ['\n']);
  }

  lemma StopLast(was: string, names: seq<string>, name: string, kept: nat)
    requires kept <= |name| + 1
    ensures var a := Added(names, name);
      && (names == [] ==> kept + 1 <= |a| && (was + "" + ['\n']) + (name + ['\n'])[..kept] == was + a[..kept + 1])
      && (names != [] ==> kept <= |a| && was + (name + ['\n'])[..kept] == was + a[..kept])
  {
    var a := Added(names, name);
    if names == [] {
      assert a == ['\n'] + (name + ['\n']);
      assert a[..kept + 1] == ['\n'] + (name + ['\n'])[..kept];
    } else {
      assert a == name + ['\n'];
    }
  }
}

/** One alias: its entries, the order that picks a winner, and what a merge or a local write makes of it. */
module AliasMerge {
  import opened Options
  import opened TextOrder
  import opened AliasHistory

  const MAX_VER: nat := 0x20_0000_0000_0000
  const MAX_ALIASES: nat := 256

  type Name = string

  datatype Entry = Entry(target: string, fallbacks: seq<string>, ver: nat, ts: int, writer: string,
                         deleted: bool, history: History)

  type Table = map<Name, Entry>

  predicate NameChar(c: char) {
    'A' <= c <= 'Z' || 'a' <= c <= 'z' || '0' <= c <= '9' || c == '.' || c == '_' || c == '-'
  }

  predicate ValidName(n: Name) {
    1 <= |n| <= 64 && forall i :: 0 <= i < |n| ==> NameChar(n[i])
  }

  // ---- The order of writes ----

  function Winner(aWins: bool): int {
    if aWins then 1 else -1
  }

  function Compare(a: Entry, b: Entry): int {
    if a.ver != b.ver then Winner(a.ver > b.ver)
    else if a.ts != b.ts then Winner(a.ts > b.ts)
    else if a.writer != b.writer then Winner(Less(b.writer, a.writer))
    else 0
  }

  predicate IsConflict(a: Entry, b: Entry) {
    a.ver == b.ver && (a.ts != b.ts || a.writer != b.writer)
  }

  // The higher version wins; of one version the later write, and of one time the larger name.
  lemma CompareIs(a: Entry, b: Entry)
    ensures Compare(a, b) > 0 <==>
      a.ver > b.ver || (a.ver == b.ver && (a.ts > b.ts || (a.ts == b.ts && Less(b.writer, a.writer))))
    ensures Compare(a, b) < 0 <==>
      a.ver < b.ver || (a.ver == b.ver && (a.ts < b.ts || (a.ts == b.ts && Less(a.writer, b.writer))))
    ensures Compare(a, b) == 0 <==> a.ver == b.ver && a.ts == b.ts && a.writer == b.writer
  {
    LessTotal(a.writer, b.writer);
    if Less(a.writer, b.writer) { LessAsymmetric(a.writer, b.writer); }
    if Less(b.writer, a.writer) { LessAsymmetric(b.writer, a.writer); }
  }

  lemma CompareSwaps(a: Entry, b: Entry)
    ensures Compare(a, b) == -Compare(b, a)
    ensures Compare(a, b) == 0 <==> a.ver == b.ver && a.ts == b.ts && a.writer == b.writer
  {
    LessTotal(a.writer, b.writer);
    if Less(a.writer, b.writer) { LessAsymmetric(a.writer, b.writer); }
    if Less(b.writer, a.writer) { LessAsymmetric(b.writer, a.writer); }
  }

  lemma CompareTransitive(a: Entry, b: Entry, c: Entry)
    requires Compare(a, b) <= 0 && Compare(b, c) <= 0
    ensures Compare(a, c) <= 0
    ensures Compare(a, c) == 0 ==> Compare(a, b) == 0 && Compare(b, c) == 0
  {
    CompareSwaps(a, b);
    CompareSwaps(b, c);
    CompareSwaps(a, c);
    if a.ver == b.ver == c.ver && a.ts == b.ts == c.ts && Less(a.writer, b.writer) && Less(b.writer, c.writer) {
      LessTransitive(a.writer, b.writer, c.writer);
      LessAsymmetric(a.writer, c.writer);
    }
  }

  // The write an entry carries, without the history beside it.
  function Core(e: Entry): Entry {
    e.(history := [])
  }

  function VersionOf(e: Entry): Version {
    Version(e.target, e.fallbacks, e.ts, e.writer)
  }

  // ---- A remote entry ----

  predicate AcceptRemote(e: Entry) {
    !(e.target == "" && !e.deleted) && e.ver <= MAX_VER
  }

  function HistoryAfter(prev: Option<Entry>, rest: History): History {
    Cap((if prev.Some? && !prev.value.deleted then [VersionOf(prev.value)] else []) + rest)
  }

  predicate HoldsKey(h: History, ts: int, writer: string) {
    exists i :: 0 <= i < |h| && h[i].ts == ts && h[i].writer == writer
  }

  function WithLoserFirst(h: History, loser: Entry): History {
    if loser.deleted || HoldsKey(h, loser.ts, loser.writer) then h
    else Cap([VersionOf(loser)] + h)
  }

  datatype Conflict = Conflict(winner: Entry, loser: Entry)

  datatype Merging = Merging(entry: Option<Entry>, changed: bool, conflict: Option<Conflict>)

  function Same(local: Option<Entry>): Merging {
    Merging(local, false, None)
  }

  // The remote entry wins: a broadcast has no history of its own.
  function RemoteWins(local: Entry, remote: Entry): Merging {
    var h := if remote.history == [] then HistoryAfter(Some(local), local.history) else remote.history;
    if IsConflict(remote, local) then
      var e := remote.(history := WithLoserFirst(h, local));
      Merging(Some(e), true, Some(Conflict(e, local)))
    else Merging(Some(remote.(history := h)), true, None)
  }

  function LocalWins(local: Entry, remote: Entry): Merging {
    if !IsConflict(remote, local) then Same(Some(local))
    else
      var e := local.(history := WithLoserFirst(local.history, remote));
      Merging(Some(e), e.history != local.history, Some(Conflict(e, remote)))
  }

  function Tie(local: Entry, remote: Entry): Merging {
    var h := UnionHistory(local.history, remote.history);
    Merging(Some(local.(history := h)), h != local.history, None)
  }

  function Merged(local: Option<Entry>, remote: Entry): (m: Merging) {
    if !AcceptRemote(remote) then Same(local)
    else
      var r := remote.(history := Cap(remote.history));
      if local.None? then Merging(Some(r), true, None)
      else if Compare(r, local.value) > 0 then RemoteWins(local.value, r)
      else if Compare(r, local.value) < 0 then LocalWins(local.value, r)
      else Tie(local.value, r)
  }

  // A merge keeps the winner of the two, and changes what it holds exactly when it says so.
  lemma MergedOrdered(local: Option<Entry>, remote: Entry)
    requires AcceptRemote(remote)
    ensures var m := Merged(local, remote);
      && m.entry.Some?
      && (local.Some? && Compare(remote, local.value) <= 0 ==> Core(m.entry.value) == Core(local.value))
      && (local.None? || Compare(remote, local.value) > 0 ==> Core(m.entry.value) == Core(remote))
      && (m.changed <==> m.entry != local)
  {
    var r := remote.(history := Cap(remote.history));
    if local.Some? {
      assert Compare(r, local.value) == Compare(remote, local.value);
      var m := Merged(local, remote);
      if m.entry.value.history == local.value.history && Core(m.entry.value) == Core(local.value) {
        assert m.entry.value == local.value;
      }
    }
  }

  // A merge keeps the remote write if it has the higher version, or of one version the later time,
  // or of one time the larger name, and otherwise its own.
  lemma MergedIsMax(local: Option<Entry>, remote: Entry)
    requires (remote.target != "" || remote.deleted) && remote.ver <= 0x20_0000_0000_0000
    ensures var m := Merged(local, remote);
      && m.entry.Some? && (local.None? ==> Core(m.entry.value) == Core(remote))
      && (local.Some? ==>
            var l, e := local.value, m.entry.value;
            if remote.ver > l.ver || (remote.ver == l.ver && (remote.ts > l.ts || (remote.ts == l.ts && Less(l.writer, remote.writer))))
            then Core(e) == Core(remote) else Core(e) == Core(l))
      && (m.changed <==> m.entry != local)
  {
    hide Compare, Merged;
    MergedOrdered(local, remote);
    if local.Some? { CompareIs(remote, local.value); }
  }

  lemma MergedRefused(local: Option<Entry>, remote: Entry)
    requires !AcceptRemote(remote)
    ensures Merged(local, remote) == Merging(local, false, None)
  {
  }

  // A live entry without a target, and a version past 2^53, are not taken.
  lemma RemoteRefused(local: Option<Entry>, remote: Entry)
    requires (remote.target == "" && !remote.deleted) || remote.ver > 0x20_0000_0000_0000
    ensures Merged(local, remote) == Merging(local, false, None)
  {
  }

  // The ten newest of a history that is newest first.
  function Ten(h: History): History {
    if |h| <= 10 then h else h[..10]
  }

  predicate Beats(a: Entry, b: Entry) {
    a.ver > b.ver || (a.ver == b.ver && (a.ts > b.ts || (a.ts == b.ts && Less(b.writer, a.writer))))
  }

  // The history a winner keeps beside a loser: of one version, a live loser it does not have goes first.
  function Beside(h: History, winner: Entry, loser: Entry): History {
    if winner.ver != loser.ver || loser.deleted || exists i :: 0 <= i < |h| && h[i].ts == loser.ts && h[i].writer == loser.writer then h
    else Ten([Version(loser.target, loser.fallbacks, loser.ts, loser.writer)] + h)
  }

  // What a merge makes of the histories: a remote write that wins brings its own, or, sent without one,
  // keeps the local entry and its history behind it; one that loses leaves the local history; and of
  // one write the two are united. In a conflict the loser is kept beside the winner.
  lemma MergedHistory(l: Entry, remote: Entry)
    requires (remote.target != "" || remote.deleted) && remote.ver <= 0x20_0000_0000_0000
    ensures var m, own := Merged(Some(l), remote), Ten(remote.history);
      var old_ := if l.deleted then [] else [Version(l.target, l.fallbacks, l.ts, l.writer)];
      && m.entry.Some?
      && (Beats(remote, l) ==> m.entry.value.history == Beside(if own == [] then Ten(old_ + l.history) else own, remote, l))
      && (Beats(l, remote) ==> m.entry.value.history == Beside(l.history, l, remote))
      && (!Beats(remote, l) && !Beats(l, remote) ==> m.entry.value.history == UnionHistory(l.history, own))
  {
    hide Compare, UnionHistory;
    var r := remote.(history := Cap(remote.history));
    CompareIs(r, l);
    CompareSwaps(r, l);
  }

  // A conflict is reported exactly for two writes of one version by different writes, with the
  // greater as winner; the loser, unless deleted, is then in the winner's history.
  lemma ConflictReported(local: Entry, remote: Entry)
    requires AcceptRemote(remote)
    ensures var c := Merged(Some(local), remote).conflict;
      && (c.Some? <==> local.ver == remote.ver && Core(local) != Core(remote) && Compare(local, remote) != 0)
      && (c.Some? ==> Compare(c.value.winner, c.value.loser) > 0)
      && (c.Some? && !c.value.loser.deleted ==> HoldsKey(c.value.winner.history, c.value.loser.ts, c.value.loser.writer))
  {
    var r := remote.(history := Cap(remote.history));
    CompareSwaps(r, local);
    CompareSwaps(local, remote);
    if IsConflict(r, local) {
      if Compare(r, local) > 0 {
        if !local.deleted { LoserHeld(if r.history == [] then HistoryAfter(Some(local), local.history) else r.history, local); }
      } else if !r.deleted {
        LoserHeld(local.history, r);
      }
    }
  }

  lemma LoserHeld(h: History, loser: Entry)
    requires !loser.deleted
    ensures HoldsKey(WithLoserFirst(h, loser), loser.ts, loser.writer)
  {
    if !HoldsKey(h, loser.ts, loser.writer) {
      assert Cap([VersionOf(loser)] + h)[0] == VersionOf(loser);
    }
  }

  // ---- A whole table ----

  function Find(t: Table, n: Name): Option<Entry> {
    if n in t then Some(t[n]) else None
  }

  function MergedAt(t: Table, r: Table, n: Name): Merging {
    if n in r && ValidName(n) then Merged(Find(t, n), r[n]) else Same(Find(t, n))
  }

  function MergedTable(t: Table, r: Table): Table {
    map n | n in t.Keys + r.Keys && MergedAt(t, r, n).entry.Some? :: MergedAt(t, r, n).entry.value
  }

  function ChangedNames(t: Table, r: Table): set<Name> {
    set n | n in r && MergedAt(t, r, n).changed
  }

  lemma MergedTableAt(t: Table, r: Table, n: Name)
    ensures Find(MergedTable(t, r), n) == MergedAt(t, r, n).entry
    ensures n !in ChangedNames(t, r) ==> Find(MergedTable(t, r), n) == Find(t, n)
  {
    if n in r && ValidName(n) {
      if AcceptRemote(r[n]) { MergedOrdered(Find(t, n), r[n]); } else { MergedRefused(Find(t, n), r[n]); }
    }
  }

  // ---- A local write ----

  datatype Op = Setting(target: string, fallbacks: seq<string>) | Deleting | Reverting

  datatype WriteError = BadName | NoTarget | NotFound | NoHistory | TooMany | VersionExhausted | NotSaved

  datatype Attempt = Refused(error: WriteError) | Writing(entry: Entry)

  function Live(t: Table): nat {
    |set n | n in t && !t[n].deleted|
  }

  // A new entry by self, one version past prev.
  function NextVersion(prev: Option<Entry>, ts: int, self: string): Attempt {
    var ver := if prev.Some? then prev.value.ver else 0;
    if ver >= MAX_VER then Refused(VersionExhausted)
    else Writing(Entry("", [], ver + 1, ts, self, false, []))
  }

  function SetAttempt(t: Table, n: Name, target: string, fallbacks: seq<string>, ts: int, self: string): Attempt {
    var prev := Find(t, n);
    if !ValidName(n) then Refused(BadName)
    else if (prev.None? || prev.value.deleted) && Live(t) >= MAX_ALIASES then Refused(TooMany)
    else
      var e := NextVersion(prev, ts, self);
      if e.Refused? then e
      else Writing(e.entry.(target := target, fallbacks := fallbacks,
                            history := HistoryAfter(prev, if prev.Some? then prev.value.history else [])))
  }

  function DeleteAttempt(t: Table, n: Name, ts: int, self: string): Attempt {
    if n !in t || t[n].deleted then Refused(NotFound)
    else
      var e := NextVersion(Some(t[n]), ts, self);
      if e.Refused? then e
      else Writing(e.entry.(deleted := true, history := HistoryAfter(Some(t[n]), t[n].history)))
  }

  function RevertAttempt(t: Table, n: Name, ts: int, self: string): Attempt {
    if n !in t then Refused(NotFound)
    else if t[n].history == [] then Refused(NoHistory)
    else
      var e := NextVersion(Some(t[n]), ts, self);
      if e.Refused? then e
      else
        var back := t[n].history[0];
        Writing(e.entry.(target := back.target, fallbacks := back.fallbacks,
                         history := HistoryAfter(Some(t[n]), t[n].history[1..])))
  }

  function Attempted(t: Table, n: Name, op: Op, ts: int, self: string): Attempt {
    match op
    case Setting(target, fallbacks) => SetAttempt(t, n, target, fallbacks, ts, self)
    case Deleting => DeleteAttempt(t, n, ts, self)
    case Reverting => RevertAttempt(t, n, ts, self)
  }

  // Whatever the clock says, a local write beats the entry it replaces, in the writer's name.
  lemma WriteBeats(t: Table, n: Name, op: Op, ts: int, self: string)
    requires Attempted(t, n, op, ts, self).Writing?
    ensures var e := Attempted(t, n, op, ts, self).entry;
      && e.writer == self && e.ts == ts && e.ver <= MAX_VER && |e.history| <= MAX_HISTORY
      && e.ver == (if n in t then t[n].ver else 0) + 1
      && (n in t ==> Compare(t[n], e) < 0)
  {
  }

  // What a local write puts in place: the target asked for, none, or the newest of the history; and
  // a live entry it replaces heads the history.
  lemma WriteHolds(t: Table, n: Name, op: Op, ts: int, self: string)
    requires Attempted(t, n, op, ts, self).Writing?
    ensures var e := Attempted(t, n, op, ts, self).entry;
      var old_ := if n in t && !t[n].deleted then [Version(t[n].target, t[n].fallbacks, t[n].ts, t[n].writer)] else [];
      var kept := if n !in t then [] else if op.Reverting? then t[n].history[1..] else t[n].history;
      && e.deleted == op.Deleting?
      && (op.Setting? ==> e.target == op.target && e.fallbacks == op.fallbacks)
      && (op.Deleting? ==> e.target == "" && e.fallbacks == [])
      && (op.Reverting? ==> n in t && t[n].history != [] && e.target == t[n].history[0].target && e.fallbacks == t[n].history[0].fallbacks)
      && e.history == (if |old_ + kept| <= 10 then old_ + kept else (old_ + kept)[..10])
  {
    hide Live;
  }

  lemma LiveAfter(t: Table, n: Name, e: Entry)
    requires !e.deleted
    ensures Live(t[n := e]) == Live(t) + if n in t && !t[n].deleted then 0 else 1
  {
    var u := t[n := e];
    assert (set m | m in u && !u[m].deleted) == (set m | m in t && !t[m].deleted) + {n};
  }

  // A set is refused for the number of aliases exactly if it would make them more, and then more
  // than 256; one that replaces a live alias never is.
  lemma SetRefused(t: Table, n: Name, target: string, fallbacks: seq<string>, ts: int, self: string, e: Entry)
    requires !e.deleted
    ensures var r := SetAttempt(t, n, target, fallbacks, ts, self);
      && (r == Refused(BadName) <==> !ValidName(n))
      && (r == Refused(TooMany) <==> ValidName(n) && Live(t[n := e]) > Live(t) && Live(t[n := e]) > 256)
      && (r == Refused(VersionExhausted) <==> ValidName(n) && r != Refused(TooMany) && n in t && t[n].ver >= 0x20_0000_0000_0000)
      && (r.Refused? ==> r.error in {BadName, TooMany, VersionExhausted})
  {
    hide Live, ValidName;
    LiveAfter(t, n, e);
  }

  // A second revert brings back what the first replaced, with the history but for the head: the
  // head is the first revert, with the target it had brought back.
  lemma RevertTwice(t: Table, n: Name, ts: int, ts': int, self: string)
    requires n in t && !t[n].deleted && |t[n].history| <= MAX_HISTORY
    requires RevertAttempt(t, n, ts, self).Writing?
    requires RevertAttempt(t[n := RevertAttempt(t, n, ts, self).entry], n, ts', self).Writing?
    ensures var e := RevertAttempt(t[n := RevertAttempt(t, n, ts, self).entry], n, ts', self).entry;
      && e.target == t[n].target && e.fallbacks == t[n].fallbacks && !e.deleted
      && |e.history| == |t[n].history| && e.history[1..] == t[n].history[1..]
      && e.history[0] == t[n].history[0].(ts := ts, writer := self)
  {
    var h := t[n].history;
    var one := RevertAttempt(t, n, ts, self).entry;
    assert one.history == [VersionOf(t[n])] + h[1..];
    assert one.history[1..] == h[1..];
    var two := RevertAttempt(t[n := one], n, ts', self).entry;
    assert two.history == [VersionOf(one)] + h[1..];
  }

  // Reverting a tombstone brings back what was deleted.
  lemma RevertUndeletes(t: Table, n: Name, ts: int, ts': int, self: string)
    requires DeleteAttempt(t, n, ts, self).Writing?
    requires RevertAttempt(t[n := DeleteAttempt(t, n, ts, self).entry], n, ts', self).Writing?
    ensures var e := RevertAttempt(t[n := DeleteAttempt(t, n, ts, self).entry], n, ts', self).entry;
      && e.target == t[n].target && e.fallbacks == t[n].fallbacks && !e.deleted
      && (|t[n].history| < MAX_HISTORY ==> e.history == t[n].history)
  {
    var gone := DeleteAttempt(t, n, ts, self).entry;
    assert gone.history[0] == VersionOf(t[n]);
    if |t[n].history| < MAX_HISTORY { assert gone.history[1..] == t[n].history; }
  }

  // Reverting a write brings back the live entry it replaced, with its history below the limit.
  lemma RevertUndoesSet(t: Table, n: Name, target: string, fallbacks: seq<string>, ts: int, ts': int, self: string)
    requires n in t && !t[n].deleted && SetAttempt(t, n, target, fallbacks, ts, self).Writing?
    requires RevertAttempt(t[n := SetAttempt(t, n, target, fallbacks, ts, self).entry], n, ts', self).Writing?
    ensures var set_ := SetAttempt(t, n, target, fallbacks, ts, self).entry;
      var e := RevertAttempt(t[n := set_], n, ts', self).entry;
      && set_.target == target && set_.fallbacks == fallbacks && !set_.deleted && set_.history[0] == VersionOf(t[n])
      && e.target == t[n].target && e.fallbacks == t[n].fallbacks && !e.deleted
      && (|t[n].history| < MAX_HISTORY ==> e.history == [VersionOf(set_)] + t[n].history)
  {
    var set_ := SetAttempt(t, n, target, fallbacks, ts, self).entry;
    assert set_.history[0] == VersionOf(t[n]);
    if |t[n].history| < MAX_HISTORY { assert set_.history[1..] == t[n].history; }
  }
}

/**
 The cumulative counters per client: every minute that reached the ring is added once, across
 failed saves and crashes between any two file writes.
 */
module ClientTotals {
  import opened Options
  import opened Rings
  import opened RingFile

  // One client's use of one model in a minute. No energy means not a finite number.
  datatype Use = Use(client: nat, model: nat, wh: Option<real>, busy: nat, tokens: nat)

  type Record = Cell<Use>
  type Records = Slot<Use>

  datatype Row = Row(wh: real, busy: nat, tokens: nat)
  type Rows = map<nat, Row>

  // through is the last minute counted.
  datatype Totals = Totals(since: int, through: int, rows: Rows)

  datatype Minute = Minute(ts: int, recs: Records)

  const ZERO: Record := Cell(0, Use(0, 0, Some(0.0), 0, 0))

  // ---- Adding ----

  predicate UsableWh(wh: Option<real>) {
    wh.Some? && wh.value >= 0.0
  }

  // To thousandths, halves away from zero.
  function RoundWh(wh: real): real {
    if wh >= 0.0 then (wh * 1000.0 + 0.5).Floor as real / 1000.0
    else -((-wh * 1000.0 + 0.5).Floor as real / 1000.0)
  }

  predicate IsMilli(wh: real) {
    (wh * 1000.0).Floor as real == wh * 1000.0
  }

  lemma RoundMilli(wh: real)
    requires wh >= 0.0
    ensures IsMilli(RoundWh(wh)) && RoundWh(wh) >= 0.0
  {
    var n := (wh * 1000.0 + 0.5).Floor;
    assert RoundWh(wh) * 1000.0 == n as real;
    assert (n as real).Floor == n;
  }

  // What is added never lowers a counter, though it is rounded each time.
  lemma RoundGrows(a: real, wh: real)
    requires IsMilli(a) && a >= 0.0 && wh >= 0.0
    ensures RoundWh(a + wh) >= a
  {
    var n := (a * 1000.0).Floor;
    assert (a + wh) * 1000.0 + 0.5 >= n as real + 0.5;
    assert ((a + wh) * 1000.0 + 0.5).Floor >= n;
  }

  // Counters at the precision of the file keep it.
  lemma RoundSame(a: real)
    requires IsMilli(a) && a >= 0.0
    ensures RoundWh(a) == a
  {
    var n := (a * 1000.0).Floor;
    assert (n as real + 0.5).Floor == n;
  }

  function RowOf(rows: Rows, client: nat): Row {
    if client in rows then rows[client] else Row(0.0, 0, 0)
  }

  function AddRec(rows: Rows, r: Record): Rows {
    if !UsableWh(r.rec.wh) then rows
    else
      var was := RowOf(rows, r.rec.client);
      rows[r.rec.client := Row(RoundWh(was.wh + r.rec.wh.value), was.busy + r.rec.busy, was.tokens + r.rec.tokens)]
  }

  function AddRecs(rows: Rows, recs: Records): Rows {
    if recs == [] then rows else AddRec(AddRecs(rows, recs[..|recs| - 1]), recs[|recs| - 1])
  }

  function AddMinutes(rows: Rows, ms: seq<Minute>): Rows {
    if ms == [] then rows else AddRecs(AddMinutes(rows, ms[..|ms| - 1]), ms[|ms| - 1].recs)
  }

  lemma AddMinutesPush(rows: Rows, ms: seq<Minute>, m: Minute)
    ensures AddMinutes(rows, ms + [m]) == AddRecs(AddMinutes(rows, ms), m.recs)
  {
    assert (ms + [m])[..|ms|] == ms;
  }

  lemma {:induction false} AddMinutesConcat(rows: Rows, a: seq<Minute>, b: seq<Minute>)
    ensures AddMinutes(rows, a + b) == AddMinutes(AddMinutes(rows, a), b)
  {
    if b == [] {
      assert a + b == a;
    } else {
      var init, last := b[..|b| - 1], b[|b| - 1];
      AddMinutesConcat(rows, a, init);
      assert a + b == (a + init) + [last];
      AddMinutesPush(rows, a + init, last);
    }
  }

  predicate RowsOk(rows: Rows) {
    forall k :: k in rows ==> rows[k].wh >= 0.0 && IsMilli(rows[k].wh)
  }

  // No counter is lower in b than in a.
  predicate Grown(a: Rows, b: Rows) {
    forall k :: k in a ==> k in b && a[k].wh <= b[k].wh && a[k].busy <= b[k].busy && a[k].tokens <= b[k].tokens
  }

  lemma AddRecGrows(rows: Rows, r: Record)
    requires RowsOk(rows)
    ensures RowsOk(AddRec(rows, r)) && Grown(rows, AddRec(rows, r))
  {
    hide RoundWh, IsMilli;
    if UsableWh(r.rec.wh) {
      var was := RowOf(rows, r.rec.client);
      assert was.wh >= 0.0 && IsMilli(was.wh) by { ZeroMilli(); }
      RoundGrows(was.wh, r.rec.wh.value);
      RoundMilli(was.wh + r.rec.wh.value);
    }
  }

  lemma ZeroMilli()
    ensures IsMilli(0.0)
  {
    assert (0.0 * 1000.0).Floor == 0;
  }

  lemma {:induction false} AddRecsGrows(rows: Rows, recs: Records)
    requires RowsOk(rows)
    ensures RowsOk(AddRecs(rows, recs)) && Grown(rows, AddRecs(rows, recs))
  {
    hide AddRec, IsMilli;
    if recs != [] {
      AddRecsGrows(rows, recs[..|recs| - 1]);
      AddRecGrows(AddRecs(rows, recs[..|recs| - 1]), recs[|recs| - 1]);
    }
  }

  lemma {:induction false} AddMinutesGrows(rows: Rows, ms: seq<Minute>)
    requires RowsOk(rows)
    ensures RowsOk(AddMinutes(rows, ms)) && Grown(rows, AddMinutes(rows, ms))
  {
    hide AddRecs, IsMilli;
    if ms != [] {
      AddMinutesGrows(rows, ms[..|ms| - 1]);
      AddRecsGrows(AddMinutes(rows, ms[..|ms| - 1]), ms[|ms| - 1].recs);
    }
  }

  // ---- What the counters come to ----

  predicate Counts(r: Record, c: nat) {
    r.rec.client == c && r.rec.wh.Some? && r.rec.wh.value >= 0.0
  }

  // The busy time, tokens, energy and number of a client's usable records.
  function RecsBusy(recs: Records, c: nat): nat {
    if recs == [] then 0
    else RecsBusy(recs[..|recs| - 1], c) + if Counts(recs[|recs| - 1], c) then recs[|recs| - 1].rec.busy else 0
  }

  function RecsTokens(recs: Records, c: nat): nat {
    if recs == [] then 0
    else RecsTokens(recs[..|recs| - 1], c) + if Counts(recs[|recs| - 1], c) then recs[|recs| - 1].rec.tokens else 0
  }

  function RecsWh(recs: Records, c: nat): real {
    if recs == [] then 0.0
    else RecsWh(recs[..|recs| - 1], c) + if Counts(recs[|recs| - 1], c) then recs[|recs| - 1].rec.wh.value else 0.0
  }

  function RecsCount(recs: Records, c: nat): nat {
    if recs == [] then 0
    else RecsCount(recs[..|recs| - 1], c) + if Counts(recs[|recs| - 1], c) then 1 else 0
  }

  function Flat(ms: seq<Minute>): Records {
    if ms == [] then [] else Flat(ms[..|ms| - 1]) + ms[|ms| - 1].recs
  }

  lemma {:induction false} AddRecsConcat(rows: Rows, a: Records, b: Records)
    ensures AddRecs(rows, a + b) == AddRecs(AddRecs(rows, a), b)
  {
    hide AddRec;
    if b == [] {
      assert a + b == a;
    } else {
      AddRecsConcat(rows, a, b[..|b| - 1]);
      assert (a + b)[..|a + b| - 1] == a + b[..|b| - 1];
    }
  }

  lemma {:induction false} MinutesAreRecs(rows: Rows, ms: seq<Minute>)
    ensures AddMinutes(rows, ms) == AddRecs(rows, Flat(ms))
  {
    if ms != [] {
      MinutesAreRecs(rows, ms[..|ms| - 1]);
      AddRecsConcat(rows, Flat(ms[..|ms| - 1]), ms[|ms| - 1].recs);
    }
  }

  lemma RoundNear(wh: real)
    requires wh >= 0.0
    ensures -0.0005 <= RoundWh(wh) - wh <= 0.0005
  {
    var x := wh * 1000.0 + 0.5;
    assert x.Floor as real <= x < x.Floor as real + 1.0;
  }

  // A row holds its client's busy time and tokens exactly, and its energy to half a thousandth a record.
  predicate RowHolds(row: Row, busy: nat, tokens: nat, wh: real, n: nat) {
    && row.busy == busy && row.tokens == tokens && row.wh >= 0.0
    && -0.0005 * n as real <= row.wh - wh <= 0.0005 * n as real
  }

  lemma {:induction false} RecsHold(recs: Records, c: nat)
    ensures RowHolds(RowOf(AddRecs(map[], recs), c), RecsBusy(recs, c), RecsTokens(recs, c), RecsWh(recs, c), RecsCount(recs, c))
  {
    hide RoundWh;
    if recs != [] {
      var init, r := recs[..|recs| - 1], recs[|recs| - 1];
      RecsHold(init, c);
      if Counts(r, c) {
        var was, n := RowOf(AddRecs(map[], init), c), RecsCount(init, c);
        RoundNear(was.wh + r.rec.wh.value);
        RoundMilli(was.wh + r.rec.wh.value);
        assert 0.0005 * (n + 1) as real == 0.0005 * n as real + 0.0005;
      }
    }
  }

  // The counters over any minutes: each client has its own busy time and tokens, no other's, and
  // its energy within the rounding.
  lemma CountersHold(ms: seq<Minute>, c: nat)
    ensures var recs := Flat(ms);
      RowHolds(RowOf(AddMinutes(map[], ms), c), RecsBusy(recs, c), RecsTokens(recs, c), RecsWh(recs, c), RecsCount(recs, c))
  {
    hide RowHolds, AddRecs;
    MinutesAreRecs(map[], ms);
    RecsHold(Flat(ms), c);
  }

  // ---- Reading the ring back ----

  function Written(c: Records): Records {
    if c == [] then [] else Written(c[..|c| - 1]) + If(c[|c| - 1].ts != 0, c[|c| - 1])
  }

  function ReadEvery(s: Slots<Use>): Records {
    Oldest(Written(Flatten(s)))
  }

  datatype Grouped = Grouped(minutes: seq<int>, pending: map<int, Records>)

  function GroupStep(g: Grouped, r: Record, through: int): Grouped {
    if r.ts <= through then g
    else if r.ts in g.pending then g.(pending := g.pending[r.ts := g.pending[r.ts] + [r]])
    else Grouped(g.minutes + [r.ts], g.pending[r.ts := [r]])
  }

  // The records past through, by minute, in the order the minutes first come.
  function Group(recs: Records, through: int): Grouped {
    if recs == [] then Grouped([], map[])
    else GroupStep(Group(recs[..|recs| - 1], through), recs[|recs| - 1], through)
  }

  function MinutesOf(minutes: seq<int>, pending: map<int, Records>): (ms: seq<Minute>)
    ensures |ms| == |minutes|
  {
    if minutes == [] then []
    else
      var t := minutes[|minutes| - 1];
      MinutesOf(minutes[..|minutes| - 1], pending) + [Minute(t, if t in pending then pending[t] else [])]
  }

  lemma {:induction false} MinutesOfAt(minutes: seq<int>, pending: map<int, Records>, i: nat)
    requires i < |minutes|
    ensures MinutesOf(minutes, pending)[i] == Minute(minutes[i], if minutes[i] in pending then pending[minutes[i]] else [])
  {
    if i < |minutes| - 1 { MinutesOfAt(minutes[..|minutes| - 1], pending, i); }
  }

  function Pending(s: Slots<Use>, through: int): seq<Minute> {
    var g := Group(ReadEvery(s), through);
    MinutesOf(g.minutes, g.pending)
  }

  predicate Rising(ts: seq<int>) {
    forall i, j :: 0 <= i < j < |ts| ==> ts[i] < ts[j]
  }

  lemma {:induction false} GroupAt(recs: Records, through: int, t: int)
    ensures var g := Group(recs, through);
      && (t in g.pending <==> t > through && Of(recs, t) != [])
      && (t in g.pending ==> g.pending[t] == Of(recs, t))
  {
    if recs != [] {
      GroupAt(recs[..|recs| - 1], through, t);
    }
  }

  ghost predicate GroupedTo(g: Grouped, last: int) {
    && Rising(g.minutes) && (forall t :: t in g.minutes <==> t in g.pending)
    && (forall t :: t in g.minutes ==> t <= last)
  }

  lemma {:induction false} GroupRising(recs: Records, through: int, last: int)
    requires Sorted(recs) && (recs != [] ==> recs[|recs| - 1].ts <= last)
    ensures GroupedTo(Group(recs, through), last)
  {
    hide GroupedTo, GroupStep;
    if recs == [] {
      GroupedNone(last);
    } else {
      var init, r := recs[..|recs| - 1], recs[|recs| - 1];
      GroupRising(init, through, r.ts);
      GroupStepOk(r, through, Group(init, through), last);
    }
  }

  lemma GroupedNone(last: int)
    ensures GroupedTo(Grouped([], map[]), last)
  {
  }

  lemma GroupStepOk(r: Record, through: int, g: Grouped, last: int)
    requires GroupedTo(g, r.ts) && r.ts <= last
    ensures GroupedTo(GroupStep(g, r, through), last)
  {
    var g' := GroupStep(g, r, through);
    if r.ts > through && r.ts !in g.pending {
      forall t ensures t in g'.minutes <==> t in g'.pending { assert t in g'.minutes <==> t in g.minutes || t == r.ts; }
      forall i, j | 0 <= i < j < |g'.minutes| ensures g'.minutes[i] < g'.minutes[j] {
        if j == |g.minutes| { assert g.minutes[i] in g.minutes; }
      }
    }
  }

  lemma {:induction false} WrittenOf(c: Records, t: int)
    ensures Of(Written(c), t) == if t != 0 then Of(c, t) else []
  {
    if c != [] {
      var init, last := c[..|c| - 1], c[|c| - 1];
      WrittenOf(init, t);
      OfIf(Written(init), last, last.ts != 0, t);
    }
  }

  lemma OfIf(c: Records, x: Record, p: bool, t: int)
    ensures Of(c + If(p, x), t) == Of(c, t) + If(p && x.ts == t, x)
  {
    if p { OfPush(c, x, t); } else { assert c + [] == c; }
  }

  lemma ReadEveryOf(s: Slots<Use>, t: int)
    requires t != 0
    ensures Of(ReadEvery(s), t) == Of(Flatten(s), t) && Sorted(ReadEvery(s))
  {
    hide Of, Written, Oldest;
    OldestOf(Written(Flatten(s)), t);
    OldestSorted(Written(Flatten(s)));
    WrittenOf(Flatten(s), t);
  }

  // ---- The minutes put into the ring ----

  predicate MinuteOk(m: Minute, lanes: nat) {
    m.ts > 0 && m.ts % 60 == 0 && |m.recs| <= lanes && forall c :: c in m.recs ==> c.ts == m.ts
  }

  predicate LogOk(l: seq<Minute>, lanes: nat) {
    && (forall i :: 0 <= i < |l| ==> MinuteOk(l[i], lanes))
    && (forall i, j :: 0 <= i < j < |l| ==> l[i].ts < l[j].ts)
  }

  function SlotOf(m: Minute, lanes: nat): Records
    requires |m.recs| <= lanes
  {
    m.recs + seq(lanes - |m.recs|, _ => ZERO)
  }

  function PutMinute(s: Slots<Use>, lanes: nat, m: Minute): (r: Slots<Use>)
    requires |s| > 0 && |m.recs| <= lanes
    ensures |r| == |s|
  {
    PutSlotAt(s, TruncDiv(m.ts, 60), SlotOf(m, lanes))
  }

  // A slot holds one of the minutes put into it, or was never written.
  predicate HeldFrom(l: seq<Minute>, n: nat, lanes: nat, k: nat, c: Records)
    requires n > 0
  {
    || (forall x :: x in c ==> x.ts == 0)
    || exists i :: 0 <= i < |l| && SlotIndex(l[i], n) == k && |l[i].recs| <= lanes && c == SlotOf(l[i], lanes)
  }

  function SlotIndex(m: Minute, n: nat): (k: nat)
    requires n > 0
    ensures k < n
  {
    Mod(TruncDiv(m.ts, 60), n)
  }

  // No minute since has taken the slot of the minute i.
  predicate Unlapped(l: seq<Minute>, n: nat, i: nat)
    requires n > 0 && i < |l|
  {
    forall j :: i < j < |l| ==> SlotIndex(l[j], n) != SlotIndex(l[i], n)
  }

  // The slots hold what the log put there: nothing else, and all that was not lapped.
  predicate RingOk(s: Slots<Use>, lanes: nat, l: seq<Minute>) {
    && |s| > 0 && LogOk(l, lanes)
    && (forall k :: 0 <= k < |s| ==> HeldFrom(l, |s|, lanes, k, s[k]))
    && (forall i :: 0 <= i < |l| && Unlapped(l, |s|, i) ==> RingHolds(s, lanes, l, i))
  }

  lemma PutRingOk(s: Slots<Use>, lanes: nat, l: seq<Minute>, m: Minute)
    requires RingOk(s, lanes, l) && LogOk(l + [m], lanes) && |m.recs| <= lanes
    ensures RingOk(PutMinute(s, lanes, m), lanes, l + [m])
  {
    hide SlotIndex, SlotOf, LogOk, HeldFrom, Unlapped;
    var n, l', s' := |s|, l + [m], PutMinute(s, lanes, m);
    SlotIndexIs(m, n);
    forall k | 0 <= k < n ensures HeldFrom(l', n, lanes, k, s'[k]) {
      HeldPush(l, m, n, lanes, k, s[k]);
    }
    forall i | 0 <= i < |l'| && Unlapped(l', n, i) ensures RingHolds(s', lanes, l', i) {
      if i < |l| {
        UnlappedPush(l, m, n, i);
        assert RingHolds(s, lanes, l, i);
        assert l'[i] == l[i];
      } else {
        assert l'[i] == m;
      }
    }
  }

  // The slot of the minute i holds its records.
  predicate RingHolds(s: Slots<Use>, lanes: nat, l: seq<Minute>, i: nat)
    requires |s| > 0 && i < |l|
  {
    |l[i].recs| <= lanes && s[SlotIndex(l[i], |s|)] == SlotOf(l[i], lanes)
  }

  lemma HeldPush(l: seq<Minute>, m: Minute, n: nat, lanes: nat, k: nat, c: Records)
    requires n > 0 && |m.recs| <= lanes
    ensures HeldFrom(l, n, lanes, k, c) ==> HeldFrom(l + [m], n, lanes, k, c)
    ensures k == SlotIndex(m, n) ==> HeldFrom(l + [m], n, lanes, k, SlotOf(m, lanes))
  {
    hide SlotIndex, SlotOf;
    var l' := l + [m];
    assert l'[|l|] == m;
    if HeldFrom(l, n, lanes, k, c) && !(forall x :: x in c ==> x.ts == 0) {
      var i :| 0 <= i < |l| && SlotIndex(l[i], n) == k && |l[i].recs| <= lanes && c == SlotOf(l[i], lanes);
      assert l'[i] == l[i];
    }
  }

  lemma UnlappedPush(l: seq<Minute>, m: Minute, n: nat, i: nat)
    requires n > 0 && i < |l| && Unlapped(l + [m], n, i)
    ensures Unlapped(l, n, i) && SlotIndex(m, n) != SlotIndex(l[i], n)
  {
    hide SlotIndex;
    var l' := l + [m];
    assert l'[i] == l[i] && l'[|l|] == m;
    forall j | i < j < |l| ensures SlotIndex(l[j], n) != SlotIndex(l[i], n) { assert l'[j] == l[j]; }
  }

  lemma SlotIndexIs(m: Minute, n: nat)
    requires n > 0
    ensures SlotIndex(m, n) == Mod(TruncDiv(m.ts, 60), n)
  {
  }

  lemma SlotOfOf(m: Minute, lanes: nat, t: int)
    requires MinuteOk(m, lanes) && t > 0
    ensures Of(SlotOf(m, lanes), t) == if m.ts == t then m.recs else []
  {
    var pad := seq(lanes - |m.recs|, _ => ZERO);
    OfConcat(m.recs, pad, t);
    EmptyOf(pad, t);
    if m.ts == t { AllOf(m.recs, t); } else { EmptyOf(m.recs, t); }
  }

  lemma {:induction false} AllOf(c: Records, t: int)
    requires forall x :: x in c ==> x.ts == t
    ensures Of(c, t) == c
  {
    hide Of;
    if c == [] {
      NoneOf(c, t);
    } else {
      var init, last := c[..|c| - 1], c[|c| - 1];
      AllOf(init, t);
      OfPush(init, last, t);
      assert c == init + [last];
    }
  }

  // What the ring holds of a timestamp is what some minute of the log put there.
  lemma SlotHolds(s: Slots<Use>, lanes: nat, l: seq<Minute>, k: nat, t: int) returns (i: nat)
    requires RingOk(s, lanes, l) && k < |s| && t > 0 && Of(s[k], t) != []
    ensures i < |l| && l[i].ts == t && SlotIndex(l[i], |s|) == k && l[i].recs == Of(s[k], t)
  {
    hide SlotIndex, SlotOf, MinuteOk, Of;
    var x := Of(s[k], t)[0];
    OfIn(s[k], t, x);
    i :| 0 <= i < |l| && SlotIndex(l[i], |s|) == k && |l[i].recs| <= lanes && s[k] == SlotOf(l[i], lanes);
    SlotOfOf(l[i], lanes, t);
  }

  lemma LogUnique(l: seq<Minute>, lanes: nat, i: nat, j: nat)
    requires LogOk(l, lanes) && i < |l| && j < |l| && l[i].ts == l[j].ts
    ensures i == j
  {
  }

  // Of a minute of the log that was not lapped, exactly its records are read.
  lemma RingOfMinute(s: Slots<Use>, lanes: nat, l: seq<Minute>, i: nat)
    requires RingOk(s, lanes, l) && i < |l| && Unlapped(l, |s|, i)
    ensures Of(Flatten(s), l[i].ts) == l[i].recs
  {
    hide SlotIndex, SlotOf, Of, Flatten, HeldFrom, Unlapped;
    var k, t := SlotIndex(l[i], |s|), l[i].ts;
    assert RingHolds(s, lanes, l, i) && MinuteOk(l[i], lanes);
    hide RingOk;
    SlotOfOf(l[i], lanes, t);
    forall j | 0 <= j < |s| && j != k ensures Of(s[j], t) == [] {
      if Of(s[j], t) != [] {
        var p := SlotHolds(s, lanes, l, j, t);
        RingLogOk(s, lanes, l);
        LogUnique(l, lanes, p, i);
      }
    }
    OneSlot(s, k, t);
  }

  lemma RingOfNothing(s: Slots<Use>, lanes: nat, l: seq<Minute>, t: int)
    requires RingOk(s, lanes, l) && t > 0 && Of(Flatten(s), t) != []
    ensures exists i :: 0 <= i < |l| && l[i].ts == t && l[i].recs != []
  {
    hide SlotIndex, SlotOf, Of, Flatten, RingOk;
    if j :| 0 <= j < |s| && Of(s[j], t) != [] {
      var i := SlotHolds(s, lanes, l, j, t);
    } else {
      NoSlot(s, t);
    }
  }

  // ---- What a reload adds ----

  // The minutes past through that have records.
  function Due(l: seq<Minute>, through: int): seq<Minute> {
    if l == [] then []
    else
      var rest, m := Due(l[..|l| - 1], through), l[|l| - 1];
      if through < m.ts && m.recs != [] then rest + [m] else rest
  }

  function Times(ms: seq<Minute>): seq<int> {
    seq(|ms|, i requires 0 <= i < |ms| => ms[i].ts)
  }

  lemma {:induction false} DueIs(l: seq<Minute>, lanes: nat, through: int)
    requires LogOk(l, lanes)
    ensures Rising(Times(Due(l, through)))
    ensures forall m :: m in Due(l, through) <==> m in l && m.ts > through && m.recs != []
  {
    if l != [] {
      var init, m := l[..|l| - 1], l[|l| - 1];
      DueIs(init, lanes, through);
      assert l == init + [m];
      var d := Due(init, through);
      forall x | x in d ensures x.ts < m.ts {
        var k :| 0 <= k < |init| && init[k] == x;
        assert l[k] == x;
      }
      RisingPush(d, m);
    }
  }

  lemma RisingPush(d: seq<Minute>, m: Minute)
    requires Rising(Times(d)) && forall x :: x in d ==> x.ts < m.ts
    ensures Rising(Times(d + [m]))
  {
    var t := Times(d + [m]);
    forall i, j | 0 <= i < j < |t| ensures t[i] < t[j] {
      assert t[i] == d[i].ts && d[i] in d;
      if j < |d| { assert Times(d)[i] < Times(d)[j]; }
    }
  }

  lemma {:induction false} RisingSame(a: seq<int>, b: seq<int>)
    requires Rising(a) && Rising(b) && forall t :: t in a <==> t in b
    ensures a == b
  {
    if a == [] {
      if b != [] { SomeIn(b); }
    } else if b == [] {
      SomeIn(a);
    } else {
      var x, y := a[|a| - 1], b[|b| - 1];
      RisingLast(a, b);
      RisingLast(b, a);
      var a0, b0 := a[..|a| - 1], b[..|b| - 1];
      assert a == a0 + [x] && b == b0 + [x];
      forall t ensures t in a0 <==> t in b0 {
        assert t in a <==> t in a0 || t == x;
        assert t in b <==> t in b0 || t == x;
        assert x !in a0 && x !in b0;
      }
      RisingSame(a0, b0);
    }
  }

  lemma SomeIn<T>(a: seq<T>)
    requires a != []
    ensures a[0] in a
  {
  }

  lemma RisingLast(a: seq<int>, b: seq<int>)
    requires Rising(b) && a != [] && b != [] && forall t :: t in a ==> t in b
    ensures a[|a| - 1] <= b[|b| - 1]
  {
    assert a[|a| - 1] in a;
  }

  // Reading the ring gives back exactly the minutes still due, each with its own records, if
  // none of them was lapped.
  lemma PendingIsDue(s: Slots<Use>, lanes: nat, l: seq<Minute>, through: int)
    requires RingOk(s, lanes, l) && through >= 0
    requires forall i :: 0 <= i < |l| && l[i].ts > through && l[i].recs != [] ==> Unlapped(l, |s|, i)
    ensures Pending(s, through) == Due(l, through)
  {
    hide Group, ReadEvery, Due, RingOk, Unlapped, Of, Flatten, Times, MinutesOf;
    var g, d := Group(ReadEvery(s), through), Due(l, through);
    SortedGroup(s, through);
    RingLogOk(s, lanes, l);
    DueIs(l, lanes, through);
    forall t ensures t in g.minutes <==> t in Times(d) {
      PendingAt(s, lanes, l, through, t);
    }
    RisingSame(g.minutes, Times(d));
    TimesAt(d);
    forall i | 0 <= i < |d| ensures MinutesOf(g.minutes, g.pending)[i] == d[i] {
      assert d[i] in d;
      var k :| 0 <= k < |l| && l[k] == d[i];
      RingOfMinute(s, lanes, l, k);
      ReadEveryOf(s, d[i].ts);
      GroupAt(ReadEvery(s), through, d[i].ts);
      MinutesOfAt(g.minutes, g.pending, i);
    }
  }

  lemma SortedGroup(s: Slots<Use>, through: int)
    ensures var g := Group(ReadEvery(s), through);
      Rising(g.minutes) && forall t :: t in g.minutes <==> t in g.pending
  {
    hide Group, ReadEvery;
    var r := ReadEvery(s);
    ReadEveryOf(s, 1);
    GroupRising(r, through, if r == [] then 0 else r[|r| - 1].ts);
  }

  lemma TimesAt(d: seq<Minute>)
    ensures |Times(d)| == |d| && forall i :: 0 <= i < |d| ==> Times(d)[i] == d[i].ts
  {
  }

  lemma RingLogOk(s: Slots<Use>, lanes: nat, l: seq<Minute>)
    requires RingOk(s, lanes, l)
    ensures |s| > 0 && LogOk(l, lanes)
  {
  }

  lemma PendingAt(s: Slots<Use>, lanes: nat, l: seq<Minute>, through: int, t: int)
    requires RingOk(s, lanes, l) && through >= 0
    requires forall i :: 0 <= i < |l| && l[i].ts > through && l[i].recs != [] ==> Unlapped(l, |s|, i)
    ensures t in Group(ReadEvery(s), through).minutes <==> t in Times(Due(l, through))
  {
    hide Group, ReadEvery, Due, RingOk, Unlapped, Of, Flatten;
    var g, d := Group(ReadEvery(s), through), Due(l, through);
    SortedGroup(s, through);
    GroupAt(ReadEvery(s), through, t);
    RingLogOk(s, lanes, l);
    DueIs(l, lanes, through);
    if t > through {
      ReadEveryOf(s, t);
      if Of(Flatten(s), t) != [] {
        RingOfNothing(s, lanes, l, t);
        var i :| 0 <= i < |l| && l[i].ts == t && l[i].recs != [];
        assert l[i] in d;
        var k :| 0 <= k < |d| && d[k] == l[i];
        assert Times(d)[k] == t;
      }
      if t in Times(d) {
        var k :| 0 <= k < |d| && Times(d)[k] == t;
        assert d[k] in d;
        var i :| 0 <= i < |l| && l[i] == d[k];
        RingOfMinute(s, lanes, l, i);
      }
    } else {
      forall k | 0 <= k < |d| ensures Times(d)[k] != t { assert d[k] in d; }
    }
  }
}

/** Runs of minute writes, one lane of the hour ring at a time: what each hour's record was computed from. */
module HourTier {
  import opened Rings
  import opened Tiers

  // One write, as one lane of the hour ring sees it: the records of the minute that were put, each
  // in its lane, whether the lane's hour was then recomputed, and whether the minutes could be read
  // for it. A write that fails stops anywhere in between.
  datatype Step<R> = Step(ts: int, recs: seq<(nat, R)>, rolled: bool, read: bool)

  // A lane of the hour ring: which records of the minute ring are its own, and whether its hour is
  // written even when there are none.
  datatype Track<!R> = Track(lane: nat, own: Cell<R> -> bool, agg: (Slot<R>, int) -> Cell<R>, always: bool)

  function HourOf(ts: int): int {
    TruncDiv(ts, 3600)
  }

  function StepPuts<R>(s: Step<R>): seq<Placing<R>> {
    seq(|s.recs|, i requires 0 <= i < |s.recs| => Placing(TruncDiv(s.ts, 60), s.recs[i].0, Cell(s.ts, s.recs[i].1)))
  }

  function AllPuts<R>(ss: seq<Step<R>>): seq<Placing<R>> {
    if ss == [] then [] else AllPuts(ss[..|ss| - 1]) + StepPuts(ss[|ss| - 1])
  }

  function Select<R>(own: Cell<R> -> bool, c: Slot<R>): Slot<R> {
    if c == [] then [] else Select(own, c[..|c| - 1]) + If(own(c[|c| - 1]), c[|c| - 1])
  }

  // The lane's records of the hour of the last write, as the ring then holds them and they are read.
  function HourRecs<R>(tr: Track<R>, s: Slots<R>, ss: seq<Step<R>>): Slot<R>
    requires |s| > 0 && ss != []
  {
    var h := HourOf(ss[|ss| - 1].ts);
    if ss[|ss| - 1].read then Select(tr.own, ReadWindow(PutAll(s, AllPuts(ss)), 60, 3600 * h, 3600 * h + 3600)) else []
  }

  predicate Writes<R>(tr: Track<R>, s: Slots<R>, ss: seq<Step<R>>, n: nat, k: nat)
    requires |s| > 0 && ss != [] && n > 0
  {
    ss[|ss| - 1].rolled && Mod(HourOf(ss[|ss| - 1].ts), n) == k && (tr.always || HourRecs(tr, s, ss) != [])
  }

  // What the lane holds in slot k of an hour ring of n slots after the writes.
  function LaneCell<R>(tr: Track<R>, s: Slots<R>, ss: seq<Step<R>>, n: nat, k: nat, was: Cell<R>): Cell<R>
    requires |s| > 0 && n > 0
  {
    if ss == [] then was
    else if Writes(tr, s, ss, n, k) then tr.agg(HourRecs(tr, s, ss), 3600 * HourOf(ss[|ss| - 1].ts))
    else LaneCell(tr, s, ss[..|ss| - 1], n, k, was)
  }

  // How many writes it took until the last that wrote slot k; 0 for none.
  function LastWrite<R>(tr: Track<R>, s: Slots<R>, ss: seq<Step<R>>, n: nat, k: nat): (j: nat)
    requires |s| > 0 && n > 0
    ensures j <= |ss|
  {
    if ss == [] then 0
    else if Writes(tr, s, ss, n, k) then |ss|
    else LastWrite(tr, s, ss[..|ss| - 1], n, k)
  }

  lemma {:induction false} LaneCellIs<R>(tr: Track<R>, s: Slots<R>, ss: seq<Step<R>>, n: nat, k: nat, was: Cell<R>)
    requires |s| > 0 && n > 0
    ensures var j := LastWrite(tr, s, ss, n, k);
      && (j == 0 ==> LaneCell(tr, s, ss, n, k, was) == was)
      && (j > 0 ==> Writes(tr, s, ss[..j], n, k))
      && (j > 0 ==> LaneCell(tr, s, ss, n, k, was) == tr.agg(HourRecs(tr, s, ss[..j]), 3600 * HourOf(ss[j - 1].ts)))
  {
    hide Writes, HourRecs, HourOf;
    if ss != [] {
      if Writes(tr, s, ss, n, k) {
        assert ss[..|ss|] == ss;
      } else {
        var init := ss[..|ss| - 1];
        LaneCellIs(tr, s, init, n, k, was);
        assert forall j :: 0 <= j <= |init| ==> init[..j] == ss[..j];
      }
    }
  }

  lemma {:induction false} NoneSince<R>(tr: Track<R>, s: Slots<R>, ss: seq<Step<R>>, n: nat, k: nat, m: nat)
    requires |s| > 0 && n > 0 && LastWrite(tr, s, ss, n, k) < m <= |ss|
    ensures !Writes(tr, s, ss[..m], n, k)
  {
    hide Writes;
    if m == |ss| {
      assert ss[..m] == ss;
    } else {
      NoneSince(tr, s, ss[..|ss| - 1], n, k, m);
      assert ss[..|ss| - 1][..m] == ss[..m];
    }
  }

  // ---- Runs in time order ----

  predicate Ordered<R>(ss: seq<Step<R>>, lanes: nat) {
    && (forall i :: 0 <= i < |ss| ==> ss[i].ts >= 0)
    && (forall i, j :: 0 <= i < |ss| && 0 <= j < |ss[i].recs| ==> ss[i].recs[j].0 < lanes)
    && (forall i, j :: 0 <= i < j < |ss| ==> ss[i].ts <= ss[j].ts)
  }

  lemma OrderedPrefix<R>(ss: seq<Step<R>>, lanes: nat, m: nat)
    requires Ordered(ss, lanes) && m <= |ss|
    ensures Ordered(ss[..m], lanes)
  {
  }

  // Each put comes from a write.
  lemma {:induction false} PutFrom<R>(ss: seq<Step<R>>, i: nat) returns (m: nat, j: nat)
    requires i < |AllPuts(ss)|
    ensures m < |ss| && j < |ss[m].recs|
    ensures AllPuts(ss)[i] == Placing(TruncDiv(ss[m].ts, 60), ss[m].recs[j].0, Cell(ss[m].ts, ss[m].recs[j].1))
  {
    hide TruncDiv;
    var init := ss[..|ss| - 1];
    if i < |AllPuts(init)| {
      m, j := PutFrom(init, i);
    } else {
      m, j := |ss| - 1, i - |AllPuts(init)|;
    }
  }

  lemma MinuteOfHour(a: int, b: int)
    requires 0 <= a <= b
    ensures TruncDiv(a, 60) <= TruncDiv(b, 60) <= 60 * HourOf(b) + 59 && 60 * HourOf(b) <= TruncDiv(b, 60)
    ensures HourOf(b) >= 0 && HourOf(a) <= HourOf(b)
  {
  }

  lemma StepInOrder<R>(ps: seq<Placing<R>>, s: Step<R>, lanes: nat, last: int)
    requires InOrder(ps, lanes, TruncDiv(s.ts, 60)) && TruncDiv(s.ts, 60) <= last
    requires forall j :: 0 <= j < |s.recs| ==> s.recs[j].0 < lanes
    ensures InOrder(ps + StepPuts(s), lanes, last)
  {
    hide TruncDiv;
    var b, more := TruncDiv(s.ts, 60), StepPuts(s);
    forall i | 0 <= i < |ps + more| ensures Timely((ps + more)[i], 60, lanes) && (ps + more)[i].bucket <= b {
      if i >= |ps| { assert (ps + more)[i] == more[i - |ps|]; }
    }
  }

  // The puts so far are in order and none is past the last write's hour.
  lemma {:induction false} PutsInOrder<R>(ss: seq<Step<R>>, lanes: nat, last: int)
    requires Ordered(ss, lanes) && (ss != [] ==> TruncDiv(ss[|ss| - 1].ts, 60) <= last)
    ensures InOrder(AllPuts(ss), lanes, last)
    ensures forall i :: 0 <= i < |AllPuts(ss)| ==> AllPuts(ss)[i].cell.ts >= 0
  {
    hide TruncDiv, InOrder;
    if ss == [] {
      NoPuts<R>(lanes, last);
    } else {
      var init, s := ss[..|ss| - 1], ss[|ss| - 1];
      OrderedPrefix(ss, lanes, |ss| - 1);
      if init != [] { TruncMonotone(init[|init| - 1].ts, s.ts, 60); }
      PutsInOrder(init, lanes, TruncDiv(s.ts, 60));
      StepInOrder(AllPuts(init), s, lanes, last);
    }
  }

  lemma NoPuts<R>(lanes: nat, last: int)
    ensures InOrder<R>([], lanes, last)
  {
  }

  // ---- What an hour's record is computed from ----

  // f with the lane's own records only.
  function OwnOnly<R>(own: Cell<R> -> bool, f: Cell<R> -> real): Cell<R> -> real {
    (c: Cell<R>) => if own(c) then f(c) else 0.0
  }

  lemma {:induction false} SelectSum<R>(own: Cell<R> -> bool, f: Cell<R> -> real, c: Slot<R>)
    ensures SumC(f, Select(own, c)) == SumC(OwnOnly(own, f), c)
  {
    if c != [] {
      var init, last := c[..|c| - 1], c[|c| - 1];
      SelectSum(own, f, init);
      SumIf(f, Select(own, init), last, own(last));
    }
  }

  // The lane's own records are those put to it, and f is nothing on a cell never written.
  ghost predicate TrackOk<R>(tr: Track<R>, f: Cell<R> -> real, s: Slots<R>, ss: seq<Step<R>>) {
    && (forall i, j :: 0 <= i < |ss| && 0 <= j < |ss[i].recs| ==>
          (tr.own(Cell(ss[i].ts, ss[i].recs[j].1)) <==> ss[i].recs[j].0 == tr.lane))
    && (forall k, l :: 0 <= k < |s| && 0 <= l < |s[k]| ==> f(s[k][l]) == 0.0)
  }

  lemma TrackOfLane<R>(tr: Track<R>, f: Cell<R> -> real, s: Slots<R>, ss: seq<Step<R>>)
    requires TrackOk(tr, f, s, ss)
    ensures OfLane(OwnOnly(tr.own, f), AllPuts(ss), s, tr.lane)
  {
    var g, ps := OwnOnly(tr.own, f), AllPuts(ss);
    forall i | 0 <= i < |ps| && ps[i].lane != tr.lane ensures g(ps[i].cell) == 0.0 {
      var m, j := PutFrom(ss, i);
    }
  }

  // The hour's records add up to the last record of each of its minutes so far.
  lemma HourRecsSum<R>(tr: Track<R>, f: Cell<R> -> real, s: Slots<R>, lanes: nat, ss: seq<Step<R>>)
    requires |s| >= 60 && Uniform(s, lanes) && tr.lane < lanes && Ordered(ss, lanes) && ss != [] && ss[|ss| - 1].read && TrackOk(tr, f, s, ss)
    ensures SumC(f, HourRecs(tr, s, ss)) ==
      LastSum(OwnOnly(tr.own, f), AllPuts(ss), 60 * HourOf(ss[|ss| - 1].ts), 60, tr.lane)
  {
    hide SumC, Select, PutAll, AllPuts, LastSum, ReadWindow, HourOf, OwnOnly, Ordered, TrackOk, Uniform;
    var ts := ss[|ss| - 1].ts;
    LastTime(ss, lanes);
    MinuteOfHour(0, ts);
    PutsInOrder(ss, lanes, 60 * HourOf(ts) + 59);
    TrackOfLane(tr, f, s, ss);
    SelectSum(tr.own, f, ReadWindow(PutAll(s, AllPuts(ss)), 60, 3600 * HourOf(ts), 3600 * HourOf(ts) + 3600));
    HourReads(OwnOnly(tr.own, f), s, lanes, AllPuts(ss), HourOf(ts), tr.lane);
  }

  lemma LastTime<R>(ss: seq<Step<R>>, lanes: nat)
    requires Ordered(ss, lanes) && ss != []
    ensures ss[|ss| - 1].ts >= 0
  {
  }

  // ---- Later writes leave a finished hour alone ----

  lemma {:induction false} LastPutStep<R>(ps: seq<Placing<R>>, more: seq<Placing<R>>, b: int, lane: nat)
    requires forall i :: 0 <= i < |more| ==> more[i].bucket != b
    ensures LastPut(ps + more, b, lane) == LastPut(ps, b, lane)
  {
    if more == [] {
      assert ps + more == ps;
    } else {
      var init := more[..|more| - 1];
      LastPutStep(ps, init, b, lane);
      assert (ps + more)[..|ps + more| - 1] == ps + init;
    }
  }

  lemma {:induction false} LastSumStep<R>(f: Cell<R> -> real, ps: seq<Placing<R>>, more: seq<Placing<R>>, b: int, n: nat, lane: nat)
    requires forall i :: 0 <= i < |more| ==> !(b <= more[i].bucket < b + n)
    ensures LastSum(f, ps + more, b, n, lane) == LastSum(f, ps, b, n, lane)
  {
    hide LastPut;
    if n > 0 {
      LastSumStep(f, ps, more, b, n - 1, lane);
      LastPutStep(ps, more, b + n - 1, lane);
      var i := LastPut(ps, b + n - 1, lane);
      if i >= 0 { assert (ps + more)[i] == ps[i]; }
    }
  }

  lemma HourApart(ts: int, h: int)
    requires ts >= 0 && h >= 0
    ensures 60 * h <= TruncDiv(ts, 60) < 60 * h + 60 <==> HourOf(ts) == h
  {
  }

  // Writes of other hours leave the last records of an hour's minutes as they are.
  lemma {:induction false} LastSumSame<R>(f: Cell<R> -> real, ss: seq<Step<R>>, lanes: nat, j: nat, h: int, lane: nat)
    requires Ordered(ss, lanes) && j <= |ss| && h >= 0 && forall i :: j <= i < |ss| ==> HourOf(ss[i].ts) != h
    ensures LastSum(f, AllPuts(ss), 60 * h, 60, lane) == LastSum(f, AllPuts(ss[..j]), 60 * h, 60, lane)
  {
    hide LastSum, HourOf, TruncDiv;
    if j == |ss| {
      assert ss[..j] == ss;
    } else {
      var init, s := ss[..|ss| - 1], ss[|ss| - 1];
      OrderedPrefix(ss, lanes, |ss| - 1);
      LastSumSame(f, init, lanes, j, h, lane);
      assert init[..j] == ss[..j];
      HourApart(s.ts, h);
      LastSumStep(f, AllPuts(init), StepPuts(s), 60 * h, 60, lane);
    }
  }

  // ---- An hour once written stays written ----

  // Cells never written are all the lane's own, as those of card 0 are, or none is.
  ghost predicate Unowned<R>(tr: Track<R>, s: Slots<R>) {
    forall k, l :: 0 <= k < |s| && 0 <= l < |s[k]| ==> !tr.own(s[k][l])
  }

  ghost predicate Owned<R>(tr: Track<R>, s: Slots<R>) {
    forall k, l :: 0 <= k < |s| && 0 <= l < |s[k]| ==> tr.own(s[k][l]) && s[k][l].ts == 0
  }

  function One<R>(c: Cell<R>): real {
    if c.ts > 0 then 1.0 else 0.0
  }

  function Unit<R>(c: Cell<R>): real {
    1.0
  }

  lemma {:induction false} CountSum<R>(f: Cell<R> -> real, c: Slot<R>)
    requires forall i :: 0 <= i < |c| ==> f(c[i]) == 1.0
    ensures SumC(f, c) == |c| as real
  {
    if c != [] { CountSum(f, c[..|c| - 1]); }
  }

  lemma {:induction false} SelectIn<R>(own: Cell<R> -> bool, c: Slot<R>, x: Cell<R>)
    ensures x in Select(own, c) ==> x in c && own(x)
  {
    if c != [] { SelectIn(own, c[..|c| - 1], x); }
  }

  lemma {:induction false} KeepRange<R>(c: Slot<R>, lo: int, hi: int, x: Cell<R>)
    ensures x in Keep(c, lo, hi) ==> lo <= x.ts < hi
  {
    if c != [] { KeepRange(c[..|c| - 1], lo, hi, x); }
  }

  lemma OldestIn<R>(c: Slot<R>, x: Cell<R>)
    ensures x in Oldest(c) ==> x in c
  {
    hide Oldest, Of;
    OldestOf(c, x.ts);
    OfIn(Oldest(c), x.ts, x);
    OfIn(c, x.ts, x);
  }

  lemma HourRecsTimes<R>(tr: Track<R>, s: Slots<R>, ss: seq<Step<R>>, i: nat)
    requires |s| > 0 && ss != [] && i < |HourRecs(tr, s, ss)|
    ensures HourRecs(tr, s, ss)[i].ts >= 3600 * HourOf(ss[|ss| - 1].ts) && tr.own(HourRecs(tr, s, ss)[i])
  {
    hide Oldest, Keep, Select, Flatten, PutAll, AllPuts, WindowSlots, HourOf;
    var h := HourOf(ss[|ss| - 1].ts);
    var w := Flatten(WindowSlots(PutAll(s, AllPuts(ss)), 60, 3600 * h, 3600 * h + 3600));
    var k := Keep(w, 3600 * h, 3600 * h + 3600);
    var x := HourRecs(tr, s, ss)[i];
    SelectIn(tr.own, Oldest(k), x);
    OldestIn(k, x);
    KeepRange(w, 3600 * h, 3600 * h + 3600, x);
  }

  // How many of the hour's minutes have a record of the lane.
  function Filled<R>(ps: seq<Placing<R>>, b: int, n: nat, lane: nat): nat {
    if n == 0 then 0 else Filled(ps, b, n - 1, lane) + if LastPut(ps, b + n - 1, lane) >= 0 then 1 else 0
  }

  lemma {:induction false} FilledSum<R>(g: Cell<R> -> real, ps: seq<Placing<R>>, b: int, n: nat, lane: nat)
    requires forall i :: 0 <= i < |ps| && ps[i].lane == lane && b <= ps[i].bucket < b + n ==> g(ps[i].cell) == 1.0
    ensures LastSum(g, ps, b, n, lane) == Filled(ps, b, n, lane) as real
  {
    hide LastPut;
    if n > 0 {
      FilledSum(g, ps, b, n - 1, lane);
      var i := LastPut(ps, b + n - 1, lane);
      if i >= 0 { LastPutIs(ps, b + n - 1, lane, i); }
    }
  }

  lemma {:induction false} FilledGrows<R>(ps: seq<Placing<R>>, more: seq<Placing<R>>, b: int, n: nat, lane: nat)
    ensures Filled(ps, b, n, lane) <= Filled(ps + more, b, n, lane)
  {
    hide LastPut;
    if n > 0 {
      FilledGrows(ps, more, b, n - 1, lane);
      var i := LastPut(ps, b + n - 1, lane);
      if i >= 0 {
        LastPutIs(ps, b + n - 1, lane, i);
        assert (ps + more)[i] == ps[i];
        LastPutIs(ps + more, b + n - 1, lane, i);
      }
    }
  }

  // The hour's records are as many as its minutes that have one, unless cells never written are
  // read with them.
  lemma HourRecsCount<R>(tr: Track<R>, s: Slots<R>, lanes: nat, ss: seq<Step<R>>)
    requires |s| >= 60 && Uniform(s, lanes) && tr.lane < lanes && Ordered(ss, lanes) && ss != [] && ss[|ss| - 1].read
    requires TrackOk(tr, One, s, ss) && (Unowned(tr, s) || HourOf(ss[|ss| - 1].ts) >= 1)
    ensures |HourRecs(tr, s, ss)| == Filled(AllPuts(ss), 60 * HourOf(ss[|ss| - 1].ts), 60, tr.lane)
  {
    hide HourRecs, LastSum, SumC, HourOf, Uniform, Filled;
    var recs, ps, h := HourRecs(tr, s, ss), AllPuts(ss), HourOf(ss[|ss| - 1].ts);
    var f: Cell<R> -> real := if h >= 1 then One else OwnOnly(tr.own, Unit);
    forall i | 0 <= i < |recs| ensures f(recs[i]) == 1.0 { HourRecsTimes(tr, s, ss, i); }
    CountSum(f, recs);
    HourRecsSum(tr, f, s, lanes, ss);
    forall i | 0 <= i < |ps| && ps[i].lane == tr.lane && 60 * h <= ps[i].bucket < 60 * h + 60 ensures OwnOnly(tr.own, f)(ps[i].cell) == 1.0 {
      var m, j := PutFrom(ss, i);
      if h >= 1 { AfterFirst(ss[m].ts, h); }
    }
    FilledSum(OwnOnly(tr.own, f), ps, 60 * h, 60, tr.lane);
  }

  lemma AfterFirst(ts: int, h: int)
    requires h >= 1 && TruncDiv(ts, 60) >= 60 * h
    ensures ts > 0
  {
  }

  lemma {:induction false} PutsPrefix<R>(ss: seq<Step<R>>, j: nat) returns (more: seq<Placing<R>>)
    requires j <= |ss|
    ensures AllPuts(ss) == AllPuts(ss[..j]) + more
  {
    if j == |ss| {
      assert ss[..j] == ss;
      more := [];
    } else {
      var init := ss[..|ss| - 1];
      more := PutsPrefix(init, j);
      assert init[..j] == ss[..j];
      more := more + StepPuts(ss[|ss| - 1]);
    }
  }

  lemma {:induction false} SlotSumAt<R>(f: Cell<R> -> real, c: Slot<R>, l: nat, lo: int, hi: int)
    requires l < |c| && lo <= c[l].ts < hi && forall i :: 0 <= i < |c| ==> f(c[i]) >= 0.0
    ensures SlotSum(f, c, lo, hi) >= f(c[l])
  {
    if l < |c| - 1 {
      SlotSumAt(f, c[..|c| - 1], l, lo, hi);
    } else {
      SlotSumSign(f, c[..|c| - 1], lo, hi);
    }
  }

  lemma {:induction false} SlotSumSign<R>(f: Cell<R> -> real, c: Slot<R>, lo: int, hi: int)
    requires forall i :: 0 <= i < |c| ==> f(c[i]) >= 0.0
    ensures SlotSum(f, c, lo, hi) >= 0.0
  {
    if c != [] { SlotSumSign(f, c[..|c| - 1], lo, hi); }
  }

  lemma {:induction false} BucketsAtLeast<R>(f: Cell<R> -> real, s: Slots<R>, b: int, n: nat, lo: int, hi: int)
    requires |s| > 0 && forall k :: 0 <= k < |s| ==> SlotSum(f, s[k], lo, hi) >= 1.0
    ensures BucketSum(f, s, b, n, lo, hi) >= n as real
  {
    hide SlotSum, Mod;
    if n > 0 { BucketsAtLeast(f, s, b, n - 1, lo, hi); }
  }

  // In the first hour of 1970 the lane's cells are of that hour, written or not.
  lemma FirstHourCell<R>(tr: Track<R>, s: Slots<R>, lanes: nat, ss: seq<Step<R>>, k: nat)
    requires Uniform(s, lanes) && tr.lane < lanes && Ordered(ss, lanes) && ss != [] && k < |s|
    requires TrackOk(tr, One, s, ss) && Owned(tr, s) && HourOf(ss[|ss| - 1].ts) == 0
    ensures var r := PutAll(s, AllPuts(ss));
      |r[k]| == lanes && tr.own(r[k][tr.lane]) && 0 <= r[k][tr.lane].ts < 3600
  {
    hide PutAll, AllPuts, Holder;
    var ps := AllPuts(ss);
    CellAfter(s, lanes, ps, k, tr.lane);
    var i := Holder(ps, |s|, k, tr.lane);
    if i >= 0 {
      HolderLast(ps, |s|, k, tr.lane, i);
      var m, j := PutFrom(ss, i);
      assert ss[m].ts <= ss[|ss| - 1].ts;
    }
  }

  // So there is always one to read.
  lemma FirstHourRecs<R>(tr: Track<R>, s: Slots<R>, lanes: nat, ss: seq<Step<R>>)
    requires |s| >= 60 && Uniform(s, lanes) && tr.lane < lanes && Ordered(ss, lanes) && ss != [] && ss[|ss| - 1].read
    requires TrackOk(tr, One, s, ss) && Owned(tr, s) && HourOf(ss[|ss| - 1].ts) == 0
    ensures HourRecs(tr, s, ss) != []
  {
    hide PutAll, AllPuts, ReadWindow, Select, SumC, BucketSum, SlotSum, TrackOk, Owned, Uniform, Ordered, HourOf;
    var r, f := PutAll(s, AllPuts(ss)), OwnOnly(tr.own, Unit);
    forall k | 0 <= k < |r| ensures SlotSum(f, r[k], 0, 3600) >= 1.0 {
      FirstHourCell(tr, s, lanes, ss, k);
      SlotSumAt(f, r[k], tr.lane, 0, 3600);
    }
    BucketsAtLeast(f, r, 0, 60, 0, 3600);
    WindowSum(f, r, 0);
    SelectSum(tr.own, Unit, ReadWindow(r, 60, 0, 3600));
    NoneSummed(Unit<R>);
  }

  lemma NoneSummed<R>(f: Cell<R> -> real)
    ensures SumC(f, []) == 0.0
  {
  }

  // After the last write of its slot, no write that read its hour and recomputed it is of its hour.
  lemma HourOver<R>(tr: Track<R>, s: Slots<R>, lanes: nat, ss: seq<Step<R>>, n: nat, k: nat, i: nat, was: Cell<R>)
    requires |s| >= 60 && Uniform(s, lanes) && tr.lane < lanes && Ordered(ss, lanes) && n > 0
    requires TrackOk(tr, One, s, ss) && (tr.always || Owned(tr, s) || Unowned(tr, s))
    requires var j := LastWrite(tr, s, ss, n, k); 0 < j <= i < |ss| && ss[i].rolled && ss[i].read
    ensures HourOf(ss[i].ts) != HourOf(ss[LastWrite(tr, s, ss, n, k) - 1].ts)
  {
    hide HourRecs, HourOf, Uniform, Filled, LastWrite, Mod;
    var j := LastWrite(tr, s, ss, n, k);
    LaneCellIs(tr, s, ss, n, k, was);
    NoneSince(tr, s, ss, n, k, i + 1);
    var a, b := ss[..j], ss[..i + 1];
    assert a[|a| - 1] == ss[j - 1] && b[|b| - 1] == ss[i] && b[..j] == a;
    if HourOf(ss[i].ts) == HourOf(ss[j - 1].ts) && !tr.always {
      assert ss[j - 1].read by { ReadToWrite(tr, s, a); }
      OrderedPrefix(ss, lanes, j);
      OrderedPrefix(ss, lanes, i + 1);
      MinuteOfHour(0, ss[i].ts);
      if Owned(tr, s) && HourOf(ss[i].ts) == 0 {
        FirstHourRecs(tr, s, lanes, b);
      } else {
        HourRecsCount(tr, s, lanes, a);
        HourRecsCount(tr, s, lanes, b);
        var more := PutsPrefix(b, j);
        FilledGrows(AllPuts(a), more, 60 * HourOf(ss[i].ts), 60, tr.lane);
      }
    }
  }

  lemma ReadToWrite<R>(tr: Track<R>, s: Slots<R>, ss: seq<Step<R>>)
    requires |s| > 0 && ss != [] && HourRecs(tr, s, ss) != []
    ensures ss[|ss| - 1].read
  {
  }

  // No write of the hour has failed since the slot was last written.
  predicate Caught<R>(tr: Track<R>, s: Slots<R>, ss: seq<Step<R>>, n: nat, k: nat)
    requires |s| > 0 && n > 0 && LastWrite(tr, s, ss, n, k) > 0
  {
    var j := LastWrite(tr, s, ss, n, k);
    forall i :: j <= i < |ss| && HourOf(ss[i].ts) == HourOf(ss[j - 1].ts) ==> ss[i].rolled && ss[i].read
  }

  lemma NotRead<R>(tr: Track<R>, s: Slots<R>, ss: seq<Step<R>>)
    requires |s| > 0 && ss != [] && !ss[|ss| - 1].read
    ensures HourRecs(tr, s, ss) == []
  {
  }

  // Hour roll-up: after any run in time order, writes that failed anywhere included, a record the
  // hour ring holds is the aggregate of records that add up, in every measure, to the last record
  // each minute of its hour had when it was computed, or of none if they could not be read; and to
  // the last record each has now, if they were read and no write of the hour has failed since.
  lemma HourRecord<R>(tr: Track<R>, f: Cell<R> -> real, s: Slots<R>, lanes: nat, ss: seq<Step<R>>, n: nat, k: nat, was: Cell<R>)
    requires |s| >= 60 && Uniform(s, lanes) && tr.lane < lanes && Ordered(ss, lanes) && n > 0
    requires TrackOk(tr, One, s, ss) && TrackOk(tr, f, s, ss) && (tr.always || Owned(tr, s) || Unowned(tr, s))
    requires LastWrite(tr, s, ss, n, k) > 0
    ensures var j := LastWrite(tr, s, ss, n, k);
      var h, recs := HourOf(ss[j - 1].ts), HourRecs(tr, s, ss[..j]);
      && Mod(h, n) == k && LaneCell(tr, s, ss, n, k, was) == tr.agg(recs, 3600 * h)
      && (!ss[j - 1].read ==> recs == [])
      && (ss[j - 1].read ==> SumC(f, recs) == LastSum(OwnOnly(tr.own, f), AllPuts(ss[..j]), 60 * h, 60, tr.lane))
      && (ss[j - 1].read && Caught(tr, s, ss, n, k) ==>
            SumC(f, recs) == LastSum(OwnOnly(tr.own, f), AllPuts(ss), 60 * h, 60, tr.lane))
  {
    hide HourRecs, HourOf, Uniform, LastWrite, LastSum, SumC, LaneCell;
    var j := LastWrite(tr, s, ss, n, k);
    var h := HourOf(ss[j - 1].ts);
    LaneCellIs(tr, s, ss, n, k, was);
    OrderedPrefix(ss, lanes, j);
    assert ss[..j][|ss[..j]| - 1] == ss[j - 1];
    if ss[j - 1].read {
      HourRecsSum(tr, f, s, lanes, ss[..j]);
    } else {
      assert HourRecs(tr, s, ss[..j]) == [] by { NotRead(tr, s, ss[..j]); }
    }
    if Caught(tr, s, ss, n, k) {
      forall i | j <= i < |ss| ensures HourOf(ss[i].ts) != h {
        if ss[i].rolled && ss[i].read { HourOver(tr, s, lanes, ss, n, k, i, was); }
      }
      MinuteOfHour(0, ss[j - 1].ts);
      LastSumSame(OwnOnly(tr.own, f), ss, lanes, j, h, tr.lane);
    }
  }

  // ---- Repeating a write ----

  lemma {:induction false} PutAllConcat<R>(s: Slots<R>, a: seq<Placing<R>>, b: seq<Placing<R>>)
    requires |s| > 0
    ensures PutAll(s, a + b) == PutAll(PutAll(s, a), b)
  {
    hide PutCell;
    if b == [] {
      assert a + b == a;
    } else {
      PutAllConcat(s, a, b[..|b| - 1]);
      assert (a + b)[..|a + b| - 1] == a + b[..|b| - 1];
    }
  }

  lemma {:induction false} PutAllTwice<R>(s: Slots<R>, lanes: nat, ps: seq<Placing<R>>)
    requires |s| > 0 && Uniform(s, lanes)
    ensures PutAll(PutAll(s, ps), ps) == PutAll(s, ps)
  {
    hide PutAll, Mod, Holder;
    var one := PutAll(s, ps);
    var two := PutAll(one, ps);
    UniformAfter(s, lanes, ps);
    UniformAfter(one, lanes, ps);
    forall k | 0 <= k < |s| ensures two[k] == one[k] {
      forall l | 0 <= l < lanes ensures two[k][l] == one[k][l] {
        CellAfter(s, lanes, ps, k, l);
        CellAfter(one, lanes, ps, k, l);
      }
    }
  }

  // Writing the latest minute once more changes nothing, in the minute ring or in any lane of the
  // hour ring.
  lemma RepeatedWrite<R>(tr: Track<R>, s: Slots<R>, lanes: nat, ss: seq<Step<R>>, n: nat, k: nat, was: Cell<R>)
    requires |s| > 0 && Uniform(s, lanes) && ss != [] && n > 0
    ensures var again := ss + [ss[|ss| - 1]];
      && PutAll(s, AllPuts(again)) == PutAll(s, AllPuts(ss))
      && LaneCell(tr, s, again, n, k, was) == LaneCell(tr, s, ss, n, k, was)
  {
    hide PutAll, StepPuts, Select, ReadWindow;
    var init, last := ss[..|ss| - 1], ss[|ss| - 1];
    var again := ss + [last];
    assert again[..|ss|] == ss;
    var m := PutAll(s, AllPuts(init));
    UniformAfter(s, lanes, AllPuts(init));
    PutAllConcat(s, AllPuts(init), StepPuts(last));
    PutAllConcat(s, AllPuts(ss), StepPuts(last));
    PutAllTwice(m, lanes, StepPuts(last));
    assert PutAll(s, AllPuts(again)) == PutAll(s, AllPuts(ss));
    assert HourRecs(tr, s, again) == HourRecs(tr, s, ss);
  }
}

/**
 The hour tier: every write of a minute recomputes its hour from the minute ring. Over a run in
 time order, what an hour was last computed from is the last record of each of its minutes.
 */
module Tiers {
  import opened Rings

  // ---- Sums over records ----

  function SumC<R>(f: Cell<R> -> real, c: Slot<R>): real {
    if c == [] then 0.0 else SumC(f, c[..|c| - 1]) + f(c[|c| - 1])
  }

  lemma SumPush<R>(f: Cell<R> -> real, c: Slot<R>, x: Cell<R>)
    ensures SumC(f, c + [x]) == SumC(f, c) + f(x)
  {
    assert (c + [x])[..|c|] == c;
  }

  lemma {:induction false} SumConcat<R>(f: Cell<R> -> real, a: Slot<R>, b: Slot<R>)
    ensures SumC(f, a + b) == SumC(f, a) + SumC(f, b)
  {
    if b == [] {
      assert a + b == a;
    } else {
      var init, last := b[..|b| - 1], b[|b| - 1];
      SumConcat(f, a, init);
      assert a + b == (a + init) + [last];
      SumPush(f, a + init, last);
    }
  }

  lemma {:induction false} SumInsert<R>(f: Cell<R> -> real, c: Slot<R>, x: Cell<R>)
    ensures SumC(f, Insert(c, x)) == SumC(f, c) + f(x)
  {
    if c == [] || c[|c| - 1].ts <= x.ts {
      SumPush(f, c, x);
    } else {
      SumInsert(f, c[..|c| - 1], x);
      SumPush(f, Insert(c[..|c| - 1], x), c[|c| - 1]);
    }
  }

  lemma {:induction false} SumOldest<R>(f: Cell<R> -> real, c: Slot<R>)
    ensures SumC(f, Oldest(c)) == SumC(f, c)
  {
    if c != [] {
      SumOldest(f, c[..|c| - 1]);
      SumInsert(f, Oldest(c[..|c| - 1]), c[|c| - 1]);
    }
  }

  // The part of a slot's sum that lies in [lo, hi).
  function SlotSum<R>(f: Cell<R> -> real, c: Slot<R>, lo: int, hi: int): real {
    if c == [] then 0.0
    else SlotSum(f, c[..|c| - 1], lo, hi) + if lo <= c[|c| - 1].ts < hi then f(c[|c| - 1]) else 0.0
  }

  lemma {:induction false} KeepSum<R>(f: Cell<R> -> real, c: Slot<R>, lo: int, hi: int)
    ensures SumC(f, Keep(c, lo, hi)) == SlotSum(f, c, lo, hi)
  {
    if c != [] {
      var init, last := c[..|c| - 1], c[|c| - 1];
      KeepSum(f, init, lo, hi);
      SumIf(f, Keep(init, lo, hi), last, lo <= last.ts < hi);
    }
  }

  lemma SumIf<R>(f: Cell<R> -> real, c: Slot<R>, x: Cell<R>, p: bool)
    ensures SumC(f, c + If(p, x)) == SumC(f, c) + if p then f(x) else 0.0
  {
    if p { SumPush(f, c, x); } else { assert c + [] == c; }
  }

  lemma {:induction false} KeepConcat<R>(a: Slot<R>, b: Slot<R>, lo: int, hi: int)
    ensures Keep(a + b, lo, hi) == Keep(a, lo, hi) + Keep(b, lo, hi)
  {
    if b == [] {
      assert a + b == a;
    } else {
      hide Keep, If;
      var init, last := b[..|b| - 1], b[|b| - 1];
      KeepConcat(a, init, lo, hi);
      KeepPush(a + init, last, lo, hi);
      KeepPush(init, last, lo, hi);
      assert a + b == (a + init) + [last] && b == init + [last];
      Assoc(Keep(a, lo, hi), Keep(init, lo, hi), If(lo <= last.ts < hi, last));
    }
  }

  lemma KeepPush<R>(c: Slot<R>, x: Cell<R>, lo: int, hi: int)
    ensures Keep(c + [x], lo, hi) == Keep(c, lo, hi) + If(lo <= x.ts < hi, x)
  {
    assert (c + [x])[..|c|] == c;
  }

  function SlotsSum<R>(f: Cell<R> -> real, s: Slots<R>, lo: int, hi: int): real {
    if s == [] then 0.0 else SlotsSum(f, s[..|s| - 1], lo, hi) + SlotSum(f, s[|s| - 1], lo, hi)
  }

  lemma {:induction false} FlattenSum<R>(f: Cell<R> -> real, s: Slots<R>, lo: int, hi: int)
    ensures SumC(f, Keep(Flatten(s), lo, hi)) == SlotsSum(f, s, lo, hi)
  {
    hide Keep, SumC;
    if s == [] {
      EmptySum(f, lo, hi);
    } else {
      var init, last := s[..|s| - 1], s[|s| - 1];
      FlattenSum(f, init, lo, hi);
      KeepConcat(Flatten(init), last, lo, hi);
      SumConcat(f, Keep(Flatten(init), lo, hi), Keep(last, lo, hi));
      KeepSum(f, last, lo, hi);
    }
  }

  lemma EmptySum<R>(f: Cell<R> -> real, lo: int, hi: int)
    ensures SumC(f, Keep([], lo, hi)) == 0.0
  {
  }

  // ---- Windows of an hour ----

  // The sum over n buckets from b, each in its own slot.
  function BucketSum<R>(f: Cell<R> -> real, s: Slots<R>, b: int, n: nat, lo: int, hi: int): real
    requires |s| > 0
  {
    if n == 0 then 0.0 else BucketSum(f, s, b, n - 1, lo, hi) + SlotSum(f, s[Mod(b + n - 1, |s|)], lo, hi)
  }

  lemma {:induction false} SumsAgree<R>(f: Cell<R> -> real, w: Slots<R>, s: Slots<R>, b: int, lo: int, hi: int)
    requires |s| > 0 && forall i :: 0 <= i < |w| ==> w[i] == s[Mod(b + i, |s|)]
    ensures SlotsSum(f, w, lo, hi) == BucketSum(f, s, b, |w|, lo, hi)
  {
    hide SlotSum, Mod;
    if w != [] {
      SumsAgree(f, w[..|w| - 1], s, b, lo, hi);
      assert w[|w| - 1] == s[Mod(b + (|w| - 1), |s|)];
      assert b + (|w| - 1) == b + |w| - 1;
    }
  }

  lemma HourBuckets(h: int)
    requires h >= 0
    ensures TruncDiv(3600 * h, 60) == 60 * h && TruncDiv(3600 * h + 3599, 60) == 60 * h + 59
  {
  }

  // A ring of sixty minutes has the minutes of any hour in order.
  lemma HourInSixty(h: int, i: int)
    requires h >= 0 && 0 <= i < 60
    ensures Mod(60 * h + i, 60) == i
  {
  }

  lemma WindowSum<R>(f: Cell<R> -> real, s: Slots<R>, h: int)
    requires |s| >= 60 && h >= 0
    ensures SumC(f, ReadWindow(s, 60, 3600 * h, 3600 * h + 3600)) == BucketSum(f, s, 60 * h, 60, 3600 * h, 3600 * h + 3600)
  {
    hide SumC, Keep, Oldest, Flatten, SpanSlots, Mod, TruncDiv, BucketSum, SlotsSum;
    var lo, hi := 3600 * h, 3600 * h + 3600;
    HourBuckets(h);
    var w := WindowSlots(s, 60, lo, hi);
    assert w == SpanSlots(s, 60 * h, 60 * h + 59);
    SumOldest(f, Keep(Flatten(w), lo, hi));
    FlattenSum(f, w, lo, hi);
    HourSpan(s, h);
    SumsAgree(f, w, s, 60 * h, lo, hi);
  }

  lemma HourSpan<R>(s: Slots<R>, h: int)
    requires |s| >= 60 && h >= 0
    ensures var w := SpanSlots(s, 60 * h, 60 * h + 59); |w| == 60 && forall i :: 0 <= i < |w| ==> w[i] == s[Mod(60 * h + i, |s|)]
  {
    hide Mod;
    var w := SpanSlots(s, 60 * h, 60 * h + 59);
    if |s| == 60 {
      SpanWhole(s, 60 * h);
      forall i | 0 <= i < 60 ensures w[i] == s[Mod(60 * h + i, |s|)] { HourInSixty(h, i); }
    } else {
      hide SpanSlots;
      forall i | 0 <= i < 60 ensures |w| == 60 && w[i] == s[Mod(60 * h + i, |s|)] {
        SpanAt(s, 60 * h, 60 * h + 59, i);
      }
      SpanAt(s, 60 * h, 60 * h + 59, 0);
    }
  }

  lemma SpanWhole<R>(s: Slots<R>, b: int)
    requires |s| == 60
    ensures SpanSlots(s, b, b + 59) == s
  {
  }

  // ---- The last record of each minute ----

  // The last put of a bucket to a lane, or -1.
  function LastPut<R>(ps: seq<Placing<R>>, b: int, lane: nat): (i: int)
    ensures -1 <= i < |ps|
  {
    if ps == [] then -1
    else if ps[|ps| - 1].bucket == b && ps[|ps| - 1].lane == lane then |ps| - 1
    else LastPut(ps[..|ps| - 1], b, lane)
  }

  function LastValue<R>(f: Cell<R> -> real, ps: seq<Placing<R>>, b: int, lane: nat): real {
    var i := LastPut(ps, b, lane);
    if i < 0 then 0.0 else f(ps[i].cell)
  }

  function LastSum<R>(f: Cell<R> -> real, ps: seq<Placing<R>>, b: int, n: nat, lane: nat): real {
    if n == 0 then 0.0 else LastSum(f, ps, b, n - 1, lane) + LastValue(f, ps, b + n - 1, lane)
  }

  lemma {:induction false} LastPutIs<R>(ps: seq<Placing<R>>, b: int, lane: nat, j: nat)
    requires j < |ps|
    ensures var i := LastPut(ps, b, lane);
      && (i >= 0 ==> ps[i].bucket == b && ps[i].lane == lane)
      && (ps[j].bucket == b && ps[j].lane == lane ==> j <= i)
  {
    if j == |ps| - 1 {
      if |ps| > 1 { LastPutIs(ps[..|ps| - 1], b, lane, 0); }
    } else {
      LastPutIs(ps[..|ps| - 1], b, lane, j);
    }
  }

  lemma {:induction false} LastSumBound<R>(f: Cell<R> -> real, ps: seq<Placing<R>>, b: int, n: nat, lane: nat, most: real)
    requires most >= 0.0 && forall i :: 0 <= i < |ps| ==> f(ps[i].cell) <= most
    ensures LastSum(f, ps, b, n, lane) <= most * n as real
  {
    hide LastPut;
    if n > 0 {
      LastSumBound(f, ps, b, n - 1, lane, most);
      assert most * n as real == most * (n - 1) as real + most;
    }
  }

  // The buckets come in order and none is past last.
  predicate InOrder<R>(ps: seq<Placing<R>>, lanes: nat, last: int) {
    && (forall i :: 0 <= i < |ps| ==> Timely(ps[i], 60, lanes) && ps[i].bucket <= last)
    && (forall i, j :: 0 <= i < j < |ps| ==> ps[i].bucket <= ps[j].bucket)
  }

  // f looks at the records of one lane only, and at nothing that was never written.
  ghost predicate OfLane<R>(f: Cell<R> -> real, ps: seq<Placing<R>>, s: Slots<R>, lane: nat) {
    && (forall i :: 0 <= i < |ps| && ps[i].lane != lane ==> f(ps[i].cell) == 0.0)
    && (forall k, l :: 0 <= k < |s| && 0 <= l < |s[k]| ==> f(s[k][l]) == 0.0)
  }

  // In time order, nothing has yet overwritten a minute of the last hour.
  lemma HolderIsLast<R>(ps: seq<Placing<R>>, lanes: nat, n: nat, h: int, b: int, lane: nat)
    requires n >= 60 && h >= 0 && InOrder(ps, lanes, 60 * h + 59) && 60 * h <= b < 60 * h + 60 && lane < lanes
    ensures var i := Holder(ps, n, Mod(b, n), lane);
      && (LastPut(ps, b, lane) >= 0 ==> i == LastPut(ps, b, lane))
      && (LastPut(ps, b, lane) < 0 && i >= 0 ==> !(60 * h <= ps[i].bucket < 60 * h + 60))
  {
    hide Mod, Holder, LastPut;
    var i, j := Holder(ps, n, Mod(b, n), lane), LastPut(ps, b, lane);
    if i >= 0 {
      HolderLast(ps, n, Mod(b, n), lane, i);
      LastPutIs(ps, b, lane, i);
      if 60 * h <= ps[i].bucket { ModApart(ps[i].bucket, b, n); }
    }
    if j >= 0 {
      LastPutIs(ps, b, lane, j);
      HolderLast(ps, n, Mod(b, n), lane, j);
      assert ps[j].bucket <= ps[i].bucket || i <= j;
    }
  }

  lemma {:induction false} NoLaneSum<R>(f: Cell<R> -> real, c: Slot<R>, lo: int, hi: int)
    requires forall l :: 0 <= l < |c| ==> f(c[l]) == 0.0
    ensures SlotSum(f, c, lo, hi) == 0.0
  {
    if c != [] { NoLaneSum(f, c[..|c| - 1], lo, hi); }
  }

  // A slot's sum is what its lane holds, if that is of the time asked for.
  lemma {:induction false} LaneSum<R>(f: Cell<R> -> real, c: Slot<R>, lane: nat, lo: int, hi: int)
    requires lane < |c| && forall l :: 0 <= l < |c| && l != lane ==> f(c[l]) == 0.0
    ensures SlotSum(f, c, lo, hi) == if lo <= c[lane].ts < hi then f(c[lane]) else 0.0
  {
    var init := c[..|c| - 1];
    if lane == |c| - 1 {
      NoLaneSum(f, init, lo, hi);
    } else {
      LaneSum(f, init, lane, lo, hi);
      assert f(c[|c| - 1]) == 0.0;
    }
  }

  lemma SlotValue<R>(f: Cell<R> -> real, s: Slots<R>, lanes: nat, ps: seq<Placing<R>>, h: int, b: int, lane: nat)
    requires |s| >= 60 && Uniform(s, lanes) && h >= 0 && lane < lanes && InOrder(ps, lanes, 60 * h + 59)
    requires OfLane(f, ps, s, lane) && 60 * h <= b < 60 * h + 60
    requires forall i :: 0 <= i < |ps| ==> ps[i].cell.ts >= 0
    ensures SlotSum(f, PutAll(s, ps)[Mod(b, |s|)], 3600 * h, 3600 * h + 3600) == LastValue(f, ps, b, lane)
  {
    hide Mod, Holder, LastPut, PutAll, SlotSum, Uniform;
    var k, n, lo, hi := Mod(b, |s|), |s|, 3600 * h, 3600 * h + 3600;
    var c := PutAll(s, ps)[k];
    UniformAt(s, lanes, k);
    forall l | 0 <= l < lanes
      ensures |c| == lanes && c[l] == if Holder(ps, n, k, l) < 0 then s[k][l] else ps[Holder(ps, n, k, l)].cell
    {
      CellAfter(s, lanes, ps, k, l);
    }
    forall l | 0 <= l < |c| && l != lane ensures f(c[l]) == 0.0 {
      var i := Holder(ps, n, k, l);
      if i >= 0 { HolderLast(ps, n, k, l, i); }
    }
    LaneSum(f, c, lane, lo, hi);
    HolderIsLast(ps, lanes, n, h, b, lane);
    var i, j := Holder(ps, n, k, lane), LastPut(ps, b, lane);
    if j >= 0 {
      LastPutIs(ps, b, lane, j);
      BucketTime(ps[j].cell.ts, h);
    } else if i >= 0 {
      HolderLast(ps, n, k, lane, i);
      BucketTime(ps[i].cell.ts, h);
    }
  }

  lemma UniformAt<R>(s: Slots<R>, lanes: nat, k: nat)
    requires Uniform(s, lanes) && k < |s|
    ensures |s[k]| == lanes
  {
  }

  lemma BucketTime(ts: int, h: int)
    requires h >= 0
    ensures 60 * h <= TruncDiv(ts, 60) < 60 * h + 60 && (h > 0 || ts >= 0) <==> 3600 * h <= ts < 3600 * h + 3600
  {
  }

  lemma {:induction false} HourSums<R>(f: Cell<R> -> real, s: Slots<R>, lanes: nat, ps: seq<Placing<R>>, h: int, n: nat, lane: nat)
    requires |s| >= 60 && Uniform(s, lanes) && h >= 0 && lane < lanes && InOrder(ps, lanes, 60 * h + 59)
    requires OfLane(f, ps, s, lane) && n <= 60
    requires forall i :: 0 <= i < |ps| ==> ps[i].cell.ts >= 0
    ensures BucketSum(f, PutAll(s, ps), 60 * h, n, 3600 * h, 3600 * h + 3600) == LastSum(f, ps, 60 * h, n, lane)
  {
    hide Mod, LastValue, PutAll, SlotSum, Uniform, InOrder, OfLane;
    if n > 0 {
      HourSums(f, s, lanes, ps, h, n - 1, lane);
      SlotValue(f, s, lanes, ps, h, 60 * h + n - 1, lane);
    }
  }

  // Reading the last hour, at the time it is written, gives for each minute the last record put
  // for it, and nothing else.
  lemma HourReads<R>(f: Cell<R> -> real, s: Slots<R>, lanes: nat, ps: seq<Placing<R>>, h: int, lane: nat)
    requires |s| >= 60 && Uniform(s, lanes) && h >= 0 && lane < lanes && InOrder(ps, lanes, 60 * h + 59)
    requires OfLane(f, ps, s, lane) && forall i :: 0 <= i < |ps| ==> ps[i].cell.ts >= 0
    ensures SumC(f, ReadWindow(PutAll(s, ps), 60, 3600 * h, 3600 * h + 3600)) == LastSum(f, ps, 60 * h, 60, lane)
  {
    hide PutAll, ReadWindow, BucketSum, LastSum, InOrder, OfLane, Uniform;
    WindowSum(f, PutAll(s, ps), h);
    HourSums(f, s, lanes, ps, h, 60, lane);
  }
}

/**
 A ring file: a fixed number of slots of as many records each, where a record's slot follows from
 its own timestamp. Reading the slots of a window is the same as reading them all.
 */
module Rings {

  datatype Cell<R> = Cell(ts: int, rec: R)

  type Slot<R> = seq<Cell<R>>
  type Slots<R> = seq<seq<Cell<R>>>

  // ---- Arithmetic as the machine does it ----

  function TruncDiv(a: int, b: int): int
    requires b > 0
  {
    if a >= 0 then a / b else -((-a) / b)
  }

  function Mod(a: int, b: int): (m: int)
    requires b > 0
    ensures 0 <= m < b
  {
    var r := a - b * TruncDiv(a, b);
    TruncRem(a, b);
    if r < 0 then r + b else r
  }

  lemma MulUp(b: int, x: int, y: int)
    requires b > 0 && x <= y
    ensures b * x <= b * y
  {
  }

  lemma TruncRem(a: int, b: int)
    requires b > 0
    ensures -b < a - b * TruncDiv(a, b) < b
  {
    if a < 0 {
      assert b * TruncDiv(a, b) == -(b * ((-a) / b));
    }
  }

  lemma QuotientUp(b: int, q: int, r: int, p: int, s: int)
    requires b > 0 && 0 <= r < b && 0 <= s < b && b * q + r <= b * p + s
    ensures q <= p
  {
    if q > p { MulUp(b, p + 1, q); }
  }

  lemma DivMonotone(a: int, c: int, b: int)
    requires b > 0 && 0 <= a <= c
    ensures a / b <= c / b
  {
    QuotientUp(b, a / b, a % b, c / b, c % b);
  }

  lemma TruncMonotone(a: int, c: int, b: int)
    requires b > 0 && a <= c
    ensures TruncDiv(a, b) <= TruncDiv(c, b)
  {
    if a >= 0 {
      DivMonotone(a, c, b);
    } else if c < 0 {
      DivMonotone(-c, -a, b);
    } else {
      DivMonotone(0, -a, b);
      DivMonotone(0, c, b);
      ZeroDiv(b);
    }
  }

  lemma ZeroDiv(b: int)
    requires b > 0
    ensures 0 / b == 0
  {
  }

  // How often around the ring the bucket a lies.
  function Lap(a: int, b: int): int
    requires b > 0
  {
    var d := TruncDiv(a, b);
    if a - b * d < 0 then d - 1 else d
  }

  lemma LapMod(a: int, b: int)
    requires b > 0
    ensures a == b * Lap(a, b) + Mod(a, b)
  {
    hide TruncDiv;
    var d := TruncDiv(a, b);
    assert b * (d - 1) == b * d - b;
  }

  // Two buckets less than a lap apart share a slot only if they are one bucket.
  lemma ModApart(a: int, c: int, b: int)
    requires b > 0 && Mod(a, b) == Mod(c, b) && -b < a - c < b
    ensures a == c
  {
    hide Mod, Lap;
    LapMod(a, b);
    LapMod(c, b);
    var q, p, r := Lap(a, b), Lap(c, b), Mod(a, b);
    assert b * (p + 1) == b * p + b && b * (q + 1) == b * q + b;
    if q > p { MulUp(b, p + 1, q); } else if p > q { MulUp(b, q + 1, p); }
  }

  // The slots of consecutive buckets are consecutive, wrapping at the end.
  lemma ModAdd(a: int, i: int, b: int)
    requires b > 0 && 0 <= i < b
    ensures Mod(a + i, b) == if Mod(a, b) + i < b then Mod(a, b) + i else Mod(a, b) + i - b
  {
    hide Mod, Lap;
    LapMod(a, b);
    LapMod(a + i, b);
    var q, p, s, r := Lap(a, b), Lap(a + i, b), Mod(a, b) + i, Mod(a + i, b);
    assert b * (q + 1) == b * q + b;
    if s < b {
      QuotientUp(b, p, r, q, s);
      QuotientUp(b, q, s, p, r);
    } else {
      QuotientUp(b, p, r, q + 1, s - b);
      QuotientUp(b, q + 1, s - b, p, r);
    }
  }

  // ---- Reading ----

  function Flatten<R>(s: Slots<R>): Slot<R> {
    if s == [] then [] else Flatten(s[..|s| - 1]) + s[|s| - 1]
  }

  // The records with a timestamp in [lo, hi), in the order they lie.
  function Keep<R>(c: Slot<R>, lo: int, hi: int): Slot<R> {
    if c == [] then []
    else Keep(c[..|c| - 1], lo, hi) + if lo <= c[|c| - 1].ts < hi then [c[|c| - 1]] else []
  }

  function Insert<R>(c: Slot<R>, x: Cell<R>): Slot<R> {
    if c == [] || c[|c| - 1].ts <= x.ts then c + [x]
    else Insert(c[..|c| - 1], x) + [c[|c| - 1]]
  }

  // Oldest first; records of one timestamp stay in the order they lay.
  function Oldest<R>(c: Slot<R>): Slot<R> {
    if c == [] then [] else Insert(Oldest(c[..|c| - 1]), c[|c| - 1])
  }

  function SpanSlots<R>(s: Slots<R>, lo: int, hi: int): Slots<R> {
    if hi < lo then []
    else if hi - lo + 1 >= |s| then s
    else
      var count, start := hi - lo + 1, Mod(lo, |s|);
      var first := if count < |s| - start then count else |s| - start;
      s[start..start + first] + s[..count - first]
  }

  function WindowSlots<R>(s: Slots<R>, period: int, lo: int, hi: int): Slots<R> {
    if hi <= lo then []
    else if period <= 0 then s
    else SpanSlots(s, TruncDiv(lo, period), TruncDiv(hi - 1, period))
  }

  function ReadWindow<R>(s: Slots<R>, period: int, lo: int, hi: int): Slot<R> {
    Oldest(Keep(Flatten(WindowSlots(s, period, lo, hi)), lo, hi))
  }

  function ReadAll<R>(s: Slots<R>, lo: int, hi: int): Slot<R> {
    Oldest(Keep(Flatten(s), lo, hi))
  }

  // ---- Lists by timestamp ----

  predicate Sorted<R>(c: Slot<R>) {
    forall i, j :: 0 <= i < j < |c| ==> c[i].ts <= c[j].ts
  }

  function If<R>(p: bool, x: Cell<R>): Slot<R> {
    if p then [x] else []
  }

  // The records of one timestamp.
  function Of<R>(c: Slot<R>, t: int): Slot<R> {
    if c == [] then [] else Of(c[..|c| - 1], t) + If(c[|c| - 1].ts == t, c[|c| - 1])
  }

  lemma OfPush<R>(c: Slot<R>, x: Cell<R>, t: int)
    ensures Of(c + [x], t) == Of(c, t) + If(x.ts == t, x)
  {
    assert (c + [x])[..|c|] == c;
  }

  lemma {:induction false} OfConcat<R>(a: Slot<R>, b: Slot<R>, t: int)
    ensures Of(a + b, t) == Of(a, t) + Of(b, t)
  {
    hide Of, If;
    if b == [] {
      assert a + b == a;
      NoneOf(b, t);
    } else {
      var init, last := b[..|b| - 1], b[|b| - 1];
      OfConcat(a, init, t);
      assert a + b == (a + init) + [last] && b == init + [last];
      OfPush(a + init, last, t);
      OfPush(init, last, t);
      Assoc(Of(a, t), Of(init, t), If(last.ts == t, last));
    }
  }

  lemma Assoc<T>(a: seq<T>, b: seq<T>, c: seq<T>)
    ensures (a + b) + c == a + (b + c)
  {
  }

  lemma {:induction false} OfIn<R>(c: Slot<R>, t: int, x: Cell<R>)
    ensures x in Of(c, t) <==> x in c && x.ts == t
  {
    if c != [] {
      OfIn(c[..|c| - 1], t, x);
      assert c == c[..|c| - 1] + [c[|c| - 1]];
    }
  }

  lemma {:induction false} OfKeep<R>(c: Slot<R>, lo: int, hi: int, t: int)
    ensures Of(Keep(c, lo, hi), t) == if lo <= t < hi then Of(c, t) else []
  {
    if c != [] {
      var init, last := c[..|c| - 1], c[|c| - 1];
      OfKeep(init, lo, hi, t);
      OfPush(Keep(init, lo, hi), last, t);
      assert Keep(init, lo, hi) + [] == Keep(init, lo, hi);
    }
  }

  lemma {:induction false} InsertOf<R>(c: Slot<R>, x: Cell<R>, t: int)
    ensures Of(Insert(c, x), t) == Of(c, t) + If(x.ts == t, x)
  {
    if c == [] || c[|c| - 1].ts <= x.ts {
      OfPush(c, x, t);
    } else {
      var init, last := c[..|c| - 1], c[|c| - 1];
      InsertOf(init, x, t);
      OfPush(Insert(init, x), last, t);
    }
  }

  lemma {:induction false} InsertSorted<R>(c: Slot<R>, x: Cell<R>)
    requires Sorted(c)
    ensures Sorted(Insert(c, x)) && forall y :: y in Insert(c, x) ==> y in c || y == x
  {
    if c != [] && c[|c| - 1].ts > x.ts {
      var init, last := c[..|c| - 1], c[|c| - 1];
      InsertSorted(init, x);
      var r := Insert(init, x);
      forall y | y in r ensures y.ts <= last.ts && (y in c || y == x) {
        if y != x {
          var k :| 0 <= k < |init| && init[k] == y;
          assert c[k] == y;
        }
      }
    }
  }

  lemma {:induction false} OldestOf<R>(c: Slot<R>, t: int)
    ensures Of(Oldest(c), t) == Of(c, t)
  {
    if c != [] {
      OldestOf(c[..|c| - 1], t);
      InsertOf(Oldest(c[..|c| - 1]), c[|c| - 1], t);
    }
  }

  lemma {:induction false} OldestSorted<R>(c: Slot<R>)
    ensures Sorted(Oldest(c))
  {
    if c != [] {
      OldestSorted(c[..|c| - 1]);
      InsertSorted(Oldest(c[..|c| - 1]), c[|c| - 1]);
    }
  }

  ghost predicate SameByTime<R>(a: Slot<R>, b: Slot<R>) {
    forall t :: Of(a, t) == Of(b, t)
  }

  // Sorted lists with the same records of every timestamp are the same.
  lemma {:induction false} SortedSame<R>(a: Slot<R>, b: Slot<R>)
    requires Sorted(a) && Sorted(b) && SameByTime(a, b)
    ensures a == b
  {
    hide Of;
    if a == [] {
      if b != [] { SomeOf(b); NoneOf(a, b[|b| - 1].ts); }
    } else if b == [] {
      SomeOf(a);
      NoneOf(b, a[|a| - 1].ts);
    } else {
      LastNotAfter(a, b);
      LastNotAfter(b, a);
      SomeOf(a);
      SomeOf(b);
      var x, y, t := a[|a| - 1], b[|b| - 1], a[|a| - 1].ts;
      assert Of(a, t) == Of(b, t);
      assert x == Of(a, t)[|Of(a, t)| - 1] == y;
      assert a == a[..|a| - 1] + [x] && b == b[..|b| - 1] + [x];
      var a0, b0 := a[..|a| - 1], b[..|b| - 1];
      forall u ensures Of(a0, u) == Of(b0, u) {
        OfPush(a0, x, u);
        OfPush(b0, x, u);
        assert Of(a, u) == Of(b, u);
        SameInit(Of(a0, u), Of(b0, u), If(x.ts == u, x));
      }
      SortedSame(a0, b0);
    }
  }

  lemma SameInit<T>(a: seq<T>, b: seq<T>, c: seq<T>)
    requires a + c == b + c
    ensures a == b
  {
    assert |a| == |b|;
    assert a == (a + c)[..|a|] && b == (b + c)[..|a|];
  }

  lemma NoneOf<R>(a: Slot<R>, t: int)
    requires a == []
    ensures Of(a, t) == []
  {
  }

  lemma SomeOf<R>(a: Slot<R>)
    requires a != []
    ensures var o := Of(a, a[|a| - 1].ts); o != [] && o[|o| - 1] == a[|a| - 1]
  {
  }

  lemma LastNotAfter<R>(a: Slot<R>, b: Slot<R>)
    requires Sorted(b) && SameByTime(a, b) && a != [] && b != []
    ensures a[|a| - 1].ts <= b[|b| - 1].ts
  {
    hide Of;
    var x, t := a[|a| - 1], a[|a| - 1].ts;
    SomeOf(a);
    assert x in Of(b, t);
    OfIn(b, t, x);
    var k :| 0 <= k < |b| && b[k] == x;
  }

  lemma ReadsSame<R>(a: Slot<R>, b: Slot<R>, lo: int, hi: int)
    requires forall t :: lo <= t < hi ==> Of(a, t) == Of(b, t)
    ensures Oldest(Keep(a, lo, hi)) == Oldest(Keep(b, lo, hi))
  {
    hide Of, Keep, Oldest;
    var x, y := Keep(a, lo, hi), Keep(b, lo, hi);
    forall t ensures Of(Oldest(x), t) == Of(Oldest(y), t) {
      OldestOf(x, t);
      OldestOf(y, t);
      OfKeep(a, lo, hi, t);
      OfKeep(b, lo, hi, t);
    }
    OldestSorted(x);
    OldestSorted(y);
    SortedSame(Oldest(x), Oldest(y));
  }

  // ---- Windows ----

  lemma {:induction false} OneSlot<R>(s: Slots<R>, i: nat, t: int)
    requires i < |s| && forall j :: 0 <= j < |s| && j != i ==> Of(s[j], t) == []
    ensures Of(Flatten(s), t) == Of(s[i], t)
  {
    var init, last := s[..|s| - 1], s[|s| - 1];
    OfConcat(Flatten(init), last, t);
    if i < |s| - 1 {
      OneSlot(init, i, t);
    } else {
      NoSlot(init, t);
    }
  }

  lemma {:induction false} NoSlot<R>(s: Slots<R>, t: int)
    requires forall j :: 0 <= j < |s| ==> Of(s[j], t) == []
    ensures Of(Flatten(s), t) == []
  {
    if s != [] {
      OfConcat(Flatten(s[..|s| - 1]), s[|s| - 1], t);
      NoSlot(s[..|s| - 1], t);
    }
  }

  lemma SpanAt<R>(s: Slots<R>, lo: int, hi: int, i: nat)
    requires |s| > 0 && lo <= hi && hi - lo + 1 < |s| && i < hi - lo + 1
    ensures |SpanSlots(s, lo, hi)| == hi - lo + 1 && SpanSlots(s, lo, hi)[i] == s[Mod(lo + i, |s|)]
  {
    ModAdd(lo, i, |s|);
  }

  // Every record with a timestamp in [lo, hi) is in the slot its timestamp gives.
  ghost predicate Placed<R>(s: Slots<R>, period: int, lo: int, hi: int)
    requires period > 0
  {
    |s| > 0 && forall j :: 0 <= j < |s| ==> forall c :: c in s[j] && lo <= c.ts < hi ==> j == Mod(TruncDiv(c.ts, period), |s|)
  }

  lemma EmptyOf<R>(c: Slot<R>, t: int)
    requires forall x :: x in c ==> x.ts != t
    ensures Of(c, t) == []
  {
    if Of(c, t) != [] {
      OfIn(c, t, Of(c, t)[0]);
    }
  }

  lemma PlacedSome<R>(s: Slots<R>, period: int, lo: int, hi: int)
    requires period > 0 && Placed(s, period, lo, hi)
    ensures |s| > 0
  {
  }

  lemma OtherSlot<R>(s: Slots<R>, period: int, t: int, j: nat)
    requires period > 0 && Placed(s, period, t, t + 1) && j < |s| && j != Mod(TruncDiv(t, period), |s|)
    ensures Of(s[j], t) == []
  {
    hide Of, Mod, TruncDiv;
    EmptyOf(s[j], t);
  }

  lemma AllAt<R>(s: Slots<R>, period: int, t: int)
    requires period > 0 && Placed(s, period, t, t + 1)
    ensures Of(Flatten(s), t) == Of(s[Mod(TruncDiv(t, period), |s|)], t)
  {
    var k := Mod(TruncDiv(t, period), |s|);
    forall j | 0 <= j < |s| && j != k ensures Of(s[j], t) == [] {
      OtherSlot(s, period, t, j);
    }
    OneSlot(s, k, t);
  }

  lemma WindowAt<R>(s: Slots<R>, period: int, lo: int, hi: int, t: int)
    requires period > 0 && Placed(s, period, t, t + 1) && lo <= t < hi
    ensures Of(Flatten(WindowSlots(s, period, lo, hi)), t) == Of(s[Mod(TruncDiv(t, period), |s|)], t)
  {
    hide Of, Flatten, TruncDiv, Mod, Placed;
    PlacedSome(s, period, t, t + 1);
    var l, h, b := TruncDiv(lo, period), TruncDiv(hi - 1, period), TruncDiv(t, period);
    TruncMonotone(lo, t, period);
    TruncMonotone(t, hi - 1, period);
    if h - l + 1 >= |s| {
      AllAt(s, period, t);
    } else {
      var w := SpanSlots(s, l, h);
      SpanAt(s, l, h, b - l);
      forall j | 0 <= j < |w| && j != b - l ensures Of(w[j], t) == [] {
        SpanAt(s, l, h, j);
        if Mod(l + j, |s|) == Mod(b, |s|) { ModApart(l + j, b, |s|); }
        OtherSlot(s, period, t, Mod(l + j, |s|));
      }
      OneSlot(w, b - l, t);
    }
  }

  lemma PlacedOne<R>(s: Slots<R>, period: int, lo: int, hi: int, t: int)
    requires period > 0 && Placed(s, period, lo, hi) && lo <= t < hi
    ensures Placed(s, period, t, t + 1)
  {
    hide Mod, TruncDiv;
  }

  // A window read gives exactly what scanning the whole ring gives, each record once, wherever
  // the window wraps.
  lemma WindowIsScan<R>(s: Slots<R>, period: int, lo: int, hi: int)
    requires period > 0 && Placed(s, period, lo, hi)
    ensures ReadWindow(s, period, lo, hi) == ReadAll(s, lo, hi)
  {
    hide Of, Keep, Flatten, Oldest, Placed, WindowSlots;
    if hi <= lo {
      EmptyWindow(s, period, lo, hi);
    } else {
      forall t | lo <= t < hi ensures Of(Flatten(WindowSlots(s, period, lo, hi)), t) == Of(Flatten(s), t) {
        PlacedOne(s, period, lo, hi, t);
        WindowAt(s, period, lo, hi, t);
        AllAt(s, period, t);
      }
      ReadsSame(Flatten(WindowSlots(s, period, lo, hi)), Flatten(s), lo, hi);
    }
  }

  lemma EmptyWindow<R>(s: Slots<R>, period: int, lo: int, hi: int)
    requires hi <= lo
    ensures ReadWindow(s, period, lo, hi) == ReadAll(s, lo, hi)
  {
    ReadsSame(Flatten(WindowSlots(s, period, lo, hi)), Flatten(s), lo, hi);
  }

  // ---- Runs of puts ----

  datatype Placing<R> = Placing(bucket: int, lane: int, cell: Cell<R>)

  function PutCell<R>(s: Slots<R>, p: Placing<R>): Slots<R>
    requires |s| > 0
  {
    var k := Mod(p.bucket, |s|);
    if 0 <= p.lane < |s[k]| then s[k := s[k][p.lane := p.cell]] else s
  }

  function PutAll<R>(s: Slots<R>, ps: seq<Placing<R>>): (r: Slots<R>)
    requires |s| > 0
    ensures |r| == |s|
  {
    if ps == [] then s else PutCell(PutAll(s, ps[..|ps| - 1]), ps[|ps| - 1])
  }

  predicate Uniform<R>(s: Slots<R>, lanes: nat) {
    forall j :: 0 <= j < |s| ==> |s[j]| == lanes
  }

  // The put i is the last one to its lane among the buckets that share its slot.
  predicate Survives<R>(ps: seq<Placing<R>>, n: nat, i: nat)
    requires i < |ps| && n > 0
  {
    forall j :: i < j < |ps| && ps[j].lane == ps[i].lane ==> Mod(ps[j].bucket, n) != Mod(ps[i].bucket, n)
  }

  predicate Hits<R>(p: Placing<R>, n: nat, k: nat, lane: nat)
    requires n > 0
  {
    p.lane == lane && Mod(p.bucket, n) == k
  }

  // The last put to a lane of a slot, or -1.
  function Holder<R>(ps: seq<Placing<R>>, n: nat, k: nat, lane: nat): (i: int)
    requires n > 0
    ensures -1 <= i < |ps|
  {
    if ps == [] then -1
    else if Hits(ps[|ps| - 1], n, k, lane) then |ps| - 1
    else Holder(ps[..|ps| - 1], n, k, lane)
  }

  lemma {:induction false} HolderLast<R>(ps: seq<Placing<R>>, n: nat, k: nat, lane: nat, j: nat)
    requires n > 0 && j < |ps|
    ensures var i := Holder(ps, n, k, lane);
      && (i >= 0 ==> Hits(ps[i], n, k, lane))
      && (j > i ==> !Hits(ps[j], n, k, lane))
  {
    hide Mod;
    if j == |ps| - 1 {
      if |ps| > 1 { HolderLast(ps[..|ps| - 1], n, k, lane, 0); }
    } else {
      HolderLast(ps[..|ps| - 1], n, k, lane, j);
    }
  }

  // The holder of a lane is the one put to it that survives.
  lemma HolderSurvives<R>(ps: seq<Placing<R>>, n: nat, k: nat, lane: nat, i: nat)
    requires n > 0 && i < |ps|
    ensures Hits(ps[i], n, k, lane) && Survives(ps, n, i) <==> Holder(ps, n, k, lane) == i
  {
    hide Mod, Holder;
    var h := Holder(ps, n, k, lane);
    forall j | 0 <= j < |ps| && j > h ensures !Hits(ps[j], n, k, lane) { HolderLast(ps, n, k, lane, j); }
    HolderLast(ps, n, k, lane, i);
  }

  lemma PutCellAt<R>(s: Slots<R>, lanes: nat, p: Placing<R>, k: nat, lane: nat)
    requires |s| > 0 && Uniform(s, lanes) && k < |s| && lane < lanes
    ensures |PutCell(s, p)[k]| == lanes
    ensures PutCell(s, p)[k][lane] == if Hits(p, |s|, k, lane) then p.cell else s[k][lane]
  {
    hide Mod;
  }

  lemma {:induction false} UniformAfter<R>(s: Slots<R>, lanes: nat, ps: seq<Placing<R>>)
    requires |s| > 0 && Uniform(s, lanes)
    ensures Uniform(PutAll(s, ps), lanes)
  {
    hide Mod;
    if ps != [] { UniformAfter(s, lanes, ps[..|ps| - 1]); }
  }

  // What a lane of a slot holds after a run: its last put, or what was there before any.
  lemma {:induction false} CellAfter<R>(s: Slots<R>, lanes: nat, ps: seq<Placing<R>>, k: nat, lane: nat)
    requires |s| > 0 && Uniform(s, lanes) && k < |s| && lane < lanes
    ensures |PutAll(s, ps)[k]| == lanes
    ensures var i := Holder(ps, |s|, k, lane);
      PutAll(s, ps)[k][lane] == if i < 0 then s[k][lane] else ps[i].cell
  {
    hide Mod, PutCell, Hits;
    if ps != [] {
      CellAfter(s, lanes, ps[..|ps| - 1], k, lane);
      UniformAfter(s, lanes, ps[..|ps| - 1]);
      PutCellAt(PutAll(s, ps[..|ps| - 1]), lanes, ps[|ps| - 1], k, lane);
    }
  }

  // A put under its own timestamp's bucket, in a ring that holds nothing of the time yet.
  predicate Timely<R>(p: Placing<R>, period: int, lanes: nat)
    requires period > 0
  {
    p.bucket == TruncDiv(p.cell.ts, period) && 0 <= p.lane < lanes
  }

  ghost predicate Blank<R>(s: Slots<R>, lo: int, hi: int) {
    forall j :: 0 <= j < |s| ==> forall c :: c in s[j] ==> !(lo <= c.ts < hi)
  }

  lemma RunPlaced<R>(s: Slots<R>, lanes: nat, ps: seq<Placing<R>>, period: int, lo: int, hi: int)
    requires |s| > 0 && Uniform(s, lanes) && period > 0 && Blank(s, lo, hi)
    requires forall i :: 0 <= i < |ps| ==> Timely(ps[i], period, lanes)
    ensures Placed(PutAll(s, ps), period, lo, hi)
  {
    hide Mod, TruncDiv, Holder, PutAll;
    var r := PutAll(s, ps);
    UniformAfter(s, lanes, ps);
    forall j, c: Cell<R> | 0 <= j < |r| && c in r[j] && lo <= c.ts < hi ensures j == Mod(TruncDiv(c.ts, period), |r|) {
      var lane :| 0 <= lane < |r[j]| && r[j][lane] == c;
      HeldAt(s, lanes, ps, j, lane, lo, hi);
    }
  }

  // A record of the window is the put that survives in its lane.
  lemma HeldAt<R>(s: Slots<R>, lanes: nat, ps: seq<Placing<R>>, k: nat, lane: nat, lo: int, hi: int)
    requires |s| > 0 && Uniform(s, lanes) && k < |s| && lane < lanes && Blank(s, lo, hi)
    ensures |PutAll(s, ps)[k]| == lanes
    ensures var c, i := PutAll(s, ps)[k][lane], Holder(ps, |s|, k, lane);
      lo <= c.ts < hi ==> i >= 0 && ps[i].cell == c && Hits(ps[i], |s|, k, lane) && Survives(ps, |s|, i)
  {
    hide Mod, Holder, PutAll;
    CellAfter(s, lanes, ps, k, lane);
    var i := Holder(ps, |s|, k, lane);
    assert s[k][lane] in s[k];
    if i >= 0 { HolderSurvives(ps, |s|, k, lane, i); }
  }

  // Over any run of puts, a record is read exactly when it was put and no put to its lane since
  // went to its bucket or one a whole number of laps away.
  lemma ReadsLastPuts<R>(s: Slots<R>, lanes: nat, ps: seq<Placing<R>>, period: int, lo: int, hi: int, c: Cell<R>)
    requires |s| > 0 && Uniform(s, lanes) && period > 0 && Blank(s, lo, hi)
    requires forall i :: 0 <= i < |ps| ==> Timely(ps[i], period, lanes)
    ensures c in ReadWindow(PutAll(s, ps), period, lo, hi) <==>
      lo <= c.ts < hi && exists i :: 0 <= i < |ps| && ps[i].cell == c && Survives(ps, |s|, i)
  {
    hide Mod, TruncDiv, ReadWindow, ReadAll, Holder, PutAll, Placed;
    var r := PutAll(s, ps);
    RunPlaced(s, lanes, ps, period, lo, hi);
    WindowIsScan(r, period, lo, hi);
    ReadAllIn(r, lo, hi, c);
    UniformAfter(s, lanes, ps);
    if InSlots(r, c) && lo <= c.ts < hi {
      var j :| 0 <= j < |r| && c in r[j];
      var lane :| 0 <= lane < |r[j]| && r[j][lane] == c;
      HeldAt(s, lanes, ps, j, lane, lo, hi);
    }
    forall i | 0 <= i < |ps| && ps[i].cell == c && Survives(ps, |s|, i) ensures InSlots(r, c) {
      var k := Mod(ps[i].bucket, |s|);
      CellAfter(s, lanes, ps, k, ps[i].lane);
      HolderSurvives(ps, |s|, k, ps[i].lane, i);
      assert c in r[k];
    }
  }

  ghost predicate InSlots<R>(s: Slots<R>, c: Cell<R>) {
    exists j :: 0 <= j < |s| && c in s[j]
  }

  lemma ReadAllIn<R>(s: Slots<R>, lo: int, hi: int, c: Cell<R>)
    ensures c in ReadAll(s, lo, hi) <==> InSlots(s, c) && lo <= c.ts < hi
  {
    hide Of, Keep, Oldest, Flatten;
    var f := Flatten(s);
    OldestOf(Keep(f, lo, hi), c.ts);
    OfKeep(f, lo, hi, c.ts);
    OfIn(Oldest(Keep(f, lo, hi)), c.ts, c);
    OfIn(f, c.ts, c);
    FlattenIn(s, c);
  }

  lemma {:induction false} FlattenIn<R>(s: Slots<R>, c: Cell<R>)
    ensures c in Flatten(s) <==> InSlots(s, c)
  {
    if s != [] {
      var init := s[..|s| - 1];
      FlattenIn(init, c);
      if InSlots(init, c) {
        var j :| 0 <= j < |init| && c in init[j];
        assert c in s[j];
      }
      if InSlots(s, c) && c !in s[|s| - 1] {
        var j :| 0 <= j < |s| && c in s[j];
        assert c in init[j];
      }
    }
  }
}

/**
 The clients' hours: what the hour ring holds after any run of minutes, each with its hour
 recomputed or not.
 */
module ClientHours {
  import opened Options
  import opened Rings
  import opened RingFile
  import opened HourTier
  import opened ClientTotals
  import F = ClientFold

  function PieceOf(r: Record): F.Piece {
    F.Piece(r.rec.client, r.rec.model, if r.rec.wh.Some? then r.rec.wh.value else 0.0, r.rec.busy, r.rec.tokens)
  }

  function Pieces(recs: Records): seq<F.Piece> {
    seq(|recs|, i requires 0 <= i < |recs| => PieceOf(recs[i]))
  }

  // The records of the hour h, as they are read from the minute ring.
  function ReadHour(s: Slots<Use>, h: int): Records {
    Written(ReadWindow(s, 60, 3600 * h, 3600 * h + 3600))
  }

  // The records of the hour's minutes, one minute after the other.
  function HourLog(l: seq<Minute>, h: int): Records {
    if l == [] then []
    else HourLog(l[..|l| - 1], h) + if HourOf(l[|l| - 1].ts) == h then l[|l| - 1].recs else []
  }

  // A slot of the hour ring: the pieces from the first lane on.
  function HourSlot(ps: seq<F.Piece>, start: int, lanes: nat): Records
    requires |ps| <= lanes
  {
    seq(|ps|, i requires 0 <= i < |ps| => Cell(start, Use(ps[i].client, ps[i].model, Some(ps[i].wh), ps[i].busy, ps[i].tokens)))
      + seq(lanes - |ps|, _ => ZERO)
  }

  // The hour h as it is recomputed from the minute ring, if that can be read, and folded into the
  // lanes; and as a slot.
  function HourPieces(s: Slots<Use>, h: int, read: bool, lanes: nat, other: nat): (ps: seq<F.Piece>)
    requires lanes >= 1
    ensures |ps| <= lanes
  {
    var recs := if read then ReadHour(s, h) else [];
    F.HourKeeps(Pieces(recs), lanes, other);
    F.Hour(Pieces(recs), lanes, other)
  }

  function HourOfRing(s: Slots<Use>, h: int, read: bool, lanes: nat, other: nat): Records
    requires lanes >= 1
  {
    HourSlot(HourPieces(s, h, read, lanes, other), 3600 * h, lanes)
  }

  // ---- The hour is computed from exactly its minutes ----

  lemma {:induction false} HourLogIn(l: seq<Minute>, lanes: nat, h: int, x: Record)
    requires LogOk(l, lanes) && x in HourLog(l, h)
    ensures HourOf(x.ts) == h && exists i :: 0 <= i < |l| && l[i].ts == x.ts
  {
    hide HourOf;
    var init, m := l[..|l| - 1], l[|l| - 1];
    if x in HourLog(init, h) {
      HourLogIn(init, lanes, h, x);
      var i :| 0 <= i < |init| && init[i].ts == x.ts;
      assert l[i].ts == x.ts;
    } else {
      assert x in m.recs && MinuteOk(m, lanes);
      assert l[|l| - 1].ts == x.ts;
    }
  }

  lemma {:induction false} HourLogSorted(l: seq<Minute>, lanes: nat, h: int)
    requires LogOk(l, lanes)
    ensures Sorted(HourLog(l, h))
  {
    hide HourOf;
    if l != [] {
      var init, m := l[..|l| - 1], l[|l| - 1];
      HourLogSorted(init, lanes, h);
      var a, b := HourLog(init, h), HourLog(l, h);
      forall i, j | 0 <= i < j < |b| ensures b[i].ts <= b[j].ts {
        if j >= |a| {
          assert b[j] in m.recs && MinuteOk(m, lanes);
          if i < |a| {
            HourLogIn(init, lanes, h, a[i]);
            var k :| 0 <= k < |init| && init[k].ts == a[i].ts;
            assert l[k].ts < m.ts;
          } else {
            assert b[i] in m.recs;
          }
        }
      }
    }
  }

  lemma {:induction false} HourLogOf(l: seq<Minute>, lanes: nat, h: int, i: nat)
    requires LogOk(l, lanes) && i < |l| && HourOf(l[i].ts) == h
    ensures Of(HourLog(l, h), l[i].ts) == l[i].recs
  {
    hide HourOf, Of;
    var init, m, t := l[..|l| - 1], l[|l| - 1], l[i].ts;
    var more := if HourOf(m.ts) == h then m.recs else [];
    OfConcat(HourLog(init, h), more, t);
    assert MinuteOk(m, lanes) && MinuteOk(l[i], lanes);
    if i < |init| {
      HourLogOf(init, lanes, h, i);
      EmptyOf(more, t);
    } else {
      HourLogNone(init, lanes, h, t);
      AllOf(m.recs, t);
    }
  }

  lemma HourLogNone(l: seq<Minute>, lanes: nat, h: int, t: int)
    requires LogOk(l, lanes) && forall i :: 0 <= i < |l| ==> l[i].ts != t || HourOf(t) != h
    ensures Of(HourLog(l, h), t) == []
  {
    hide HourOf, HourLog, Of;
    forall x | x in HourLog(l, h) ensures x.ts != t {
      HourLogIn(l, lanes, h, x);
    }
    EmptyOf(HourLog(l, h), t);
  }

  // Minutes of one hour have slots of their own in a ring of an hour or more.
  lemma HourUnlapped(l: seq<Minute>, lanes: nat, n: nat, i: nat)
    requires LogOk(l, lanes) && n >= 60 && i < |l| && HourOf(l[i].ts) == HourOf(l[|l| - 1].ts)
    ensures Unlapped(l, n, i)
  {
    hide Mod;
    forall j | i < j < |l| ensures SlotIndex(l[j], n) != SlotIndex(l[i], n) {
      assert MinuteOk(l[i], lanes) && MinuteOk(l[j], lanes) && MinuteOk(l[|l| - 1], lanes);
      var a, b := TruncDiv(l[i].ts, 60), TruncDiv(l[j].ts, 60);
      assert a < b < a + 60 by { SameHour(l[i].ts, l[j].ts, l[|l| - 1].ts); }
      if Mod(a, n) == Mod(b, n) { ModApart(a, b, n); }
    }
  }

  lemma SameHour(x: int, y: int, z: int)
    requires 0 < x < y <= z && x % 60 == 0 && y % 60 == 0 && HourOf(x) == HourOf(z)
    ensures TruncDiv(x, 60) < TruncDiv(y, 60) < TruncDiv(x, 60) + 60
  {
  }

  lemma InHour(t: int, h: int)
    requires h >= 0 && t > 0
    ensures HourOf(t) == h <==> 3600 * h <= t < 3600 * h + 3600
  {
  }

  // The ring has every record where its minute belongs.
  lemma HourPlaced(s: Slots<Use>, lanes: nat, l: seq<Minute>, t: int)
    requires RingOk(s, lanes, l) && t > 0
    ensures Placed(s, 60, t, t + 1)
  {
    hide Mod;
    forall j, c | 0 <= j < |s| && c in s[j] && t <= c.ts < t + 1 ensures j == Mod(TruncDiv(c.ts, 60), |s|) {
      assert HeldFrom(l, |s|, lanes, j, s[j]);
      var i :| 0 <= i < |l| && SlotIndex(l[i], |s|) == j && |l[i].recs| <= lanes && s[j] == SlotOf(l[i], lanes);
      assert MinuteOk(l[i], lanes);
      assert c in l[i].recs by { InSlot(l[i], lanes, c); }
    }
  }

  lemma InSlot(m: Minute, lanes: nat, c: Record)
    requires |m.recs| <= lanes && c in SlotOf(m, lanes) && c.ts != 0
    ensures c in m.recs
  {
  }

  lemma ReadHourOf(s: Slots<Use>, lanes: nat, l: seq<Minute>, h: int, t: int)
    requires RingOk(s, lanes, l) && h >= 0
    ensures Of(ReadHour(s, h), t) == if t > 0 && HourOf(t) == h then Of(Flatten(s), t) else []
  {
    hide Of, Keep, Flatten, Oldest, Placed, WindowSlots, RingOk, HourOf, Written;
    var lo, hi := 3600 * h, 3600 * h + 3600;
    var w := Flatten(WindowSlots(s, 60, lo, hi));
    if t > 0 { InHour(t, h); }
    WrittenOf(Oldest(Keep(w, lo, hi)), t);
    OldestOf(Keep(w, lo, hi), t);
    OfKeep(w, lo, hi, t);
    if lo <= t < hi && t > 0 {
      HourPlaced(s, lanes, l, t);
      WindowAt(s, 60, lo, hi, t);
      AllAt(s, 60, t);
    }
  }

  lemma {:induction false} WrittenSorted(c: Records)
    requires Sorted(c)
    ensures Sorted(Written(c)) && forall x :: x in Written(c) ==> x in c
  {
    if c != [] {
      var init, x := c[..|c| - 1], c[|c| - 1];
      assert Sorted(init);
      WrittenSorted(init);
      forall y | y in init ensures y.ts <= x.ts {
        var i :| 0 <= i < |init| && init[i] == y;
        assert c[i] == y;
      }
      forall y | y in Written(init) ensures y.ts <= x.ts {
        assert y in init;
      }
      var w := Written(init);
      forall i | 0 <= i < |w| ensures w[i].ts <= x.ts {
        assert w[i] in w;
      }
    }
  }

  lemma ReadHourSorted(s: Slots<Use>, h: int)
    ensures Sorted(ReadHour(s, h))
  {
    hide Oldest, Keep, Flatten, WindowSlots, Written, Sorted;
    var k := Keep(Flatten(WindowSlots(s, 60, 3600 * h, 3600 * h + 3600)), 3600 * h, 3600 * h + 3600);
    OldestSorted(k);
    WrittenSorted(Oldest(k));
  }

  // What is read for an hour just after one of its minutes was written is the records of its
  // minutes, in order, each once.
  lemma HourReadsLog(s: Slots<Use>, lanes: nat, l: seq<Minute>)
    requires RingOk(s, lanes, l) && |s| >= 60 && l != []
    ensures ReadHour(s, HourOf(l[|l| - 1].ts)) == HourLog(l, HourOf(l[|l| - 1].ts))
  {
    hide ReadHour, HourLog, Of, Sorted, RingOk, HourOf, Flatten, Unlapped;
    var h := HourOf(l[|l| - 1].ts);
    RingLogOk(s, lanes, l);
    LogTimes(l, lanes);
    ReadHourSorted(s, h);
    HourLogSorted(l, lanes, h);
    forall t ensures Of(ReadHour(s, h), t) == Of(HourLog(l, h), t) {
      ReadHourOf(s, lanes, l, h, t);
      if i :| 0 <= i < |l| && l[i].ts == t && HourOf(t) == h {
        HourUnlapped(l, lanes, |s|, i);
        RingOfMinute(s, lanes, l, i);
        HourLogOf(l, lanes, h, i);
      } else {
        HourLogNone(l, lanes, h, t);
        if HourOf(t) == h && t > 0 {
          NotWritten(s, lanes, l, t);
        }
      }
    }
    SortedSame(ReadHour(s, h), HourLog(l, h));
  }

  lemma LogTimes(l: seq<Minute>, lanes: nat)
    requires LogOk(l, lanes) && l != []
    ensures (forall i :: 0 <= i < |l| ==> l[i].ts > 0) && HourOf(l[|l| - 1].ts) >= 0
  {
    forall i | 0 <= i < |l| ensures l[i].ts > 0 {
      assert MinuteOk(l[i], lanes);
    }
  }

  lemma NotWritten(s: Slots<Use>, lanes: nat, l: seq<Minute>, t: int)
    requires RingOk(s, lanes, l) && t > 0 && forall i :: 0 <= i < |l| ==> l[i].ts != t
    ensures Of(Flatten(s), t) == []
  {
    hide Of, Flatten, RingOk;
    if Of(Flatten(s), t) != [] {
      RingOfNothing(s, lanes, l, t);
    }
  }

  // ---- Runs ----

  // A minute that reached the ring, whether its hour was then recomputed, and whether its minutes
  // could be read for it.
  datatype Step = Step(m: Minute, rolled: bool, read: bool)

  function Log(ss: seq<Step>): seq<Minute> {
    seq(|ss|, i requires 0 <= i < |ss| => ss[i].m)
  }

  function RingAfter(s: Slots<Use>, lanes: nat, l: seq<Minute>): (r: Slots<Use>)
    requires |s| > 0 && forall i :: 0 <= i < |l| ==> |l[i].recs| <= lanes
    ensures |r| == |s|
  {
    if l == [] then s else PutMinute(RingAfter(s, lanes, l[..|l| - 1]), lanes, l[|l| - 1])
  }

  lemma {:induction false} RingAfterOk(s: Slots<Use>, lanes: nat, l: seq<Minute>)
    requires |s| > 0 && LogOk(l, lanes) && RingOk(s, lanes, [])
    ensures (forall i :: 0 <= i < |l| ==> |l[i].recs| <= lanes) && RingOk(RingAfter(s, lanes, l), lanes, l)
  {
    hide RingOk, PutMinute;
    forall i | 0 <= i < |l| ensures |l[i].recs| <= lanes {
      assert MinuteOk(l[i], lanes);
    }
    if l != [] {
      var init, m := l[..|l| - 1], l[|l| - 1];
      RingAfterOk(s, lanes, init);
      assert l == init + [m];
      PutRingOk(RingAfter(s, lanes, init), lanes, init, m);
    }
  }

  predicate Fits(ss: seq<Step>, lanes: nat) {
    LogOk(Log(ss), lanes) && forall i :: 0 <= i < |ss| ==> |ss[i].m.recs| <= lanes
  }

  // The hour the last step's minute is in, folded into the lanes.
  function Recomputed(s: Slots<Use>, ss: seq<Step>, lanes: nat, other: nat): (ps: seq<F.Piece>)
    requires |s| > 0 && lanes >= 1 && ss != [] && Fits(ss, lanes)
    ensures |ps| <= lanes
  {
    HourPieces(RingAfter(s, lanes, Log(ss)), HourOf(ss[|ss| - 1].m.ts), ss[|ss| - 1].read, lanes, other)
  }

  lemma FitsInit(ss: seq<Step>, lanes: nat, j: nat)
    requires Fits(ss, lanes) && j <= |ss|
    ensures Fits(ss[..j], lanes) && Log(ss[..j]) == Log(ss)[..j]
  {
    var a, b := Log(ss[..j]), Log(ss);
    assert a == b[..j];
    assert forall i :: 0 <= i < j ==> a[i] == b[i];
  }

  // The last step that recomputed an hour in slot k of an hour ring of n slots, counted from 1.
  function LastRolled(ss: seq<Step>, n: nat, k: nat): (j: nat)
    requires n > 0
    ensures j <= |ss|
    ensures j > 0 ==> ss[j - 1].rolled && Mod(HourOf(ss[j - 1].m.ts), n) == k
    ensures forall i :: j <= i < |ss| ==> !(ss[i].rolled && Mod(HourOf(ss[i].m.ts), n) == k)
  {
    if ss == [] then 0
    else if ss[|ss| - 1].rolled && Mod(HourOf(ss[|ss| - 1].m.ts), n) == k then |ss|
    else LastRolled(ss[..|ss| - 1], n, k)
  }

  // The pieces slot k then holds.
  function HourCell(s: Slots<Use>, ss: seq<Step>, lanes: nat, other: nat, n: nat, k: nat): (ps: seq<F.Piece>)
    requires |s| > 0 && lanes >= 1 && n > 0 && Fits(ss, lanes) && LastRolled(ss, n, k) > 0
    ensures |ps| <= lanes
  {
    var j := LastRolled(ss, n, k);
    FitsInit(ss, lanes, j);
    Recomputed(s, ss[..j], lanes, other)
  }

  // The hour ring after the run: each recomputed hour replaces its slot.
  function HourRing(hs: Slots<Use>, s: Slots<Use>, ss: seq<Step>, lanes: nat, other: nat): (r: Slots<Use>)
    requires |hs| > 0 && |s| > 0 && lanes >= 1 && Fits(ss, lanes)
    ensures |r| == |hs|
  {
    if ss == [] then hs else
      var k, h := |ss| - 1, HourOf(ss[|ss| - 1].m.ts);
      FitsInit(ss, lanes, k);
      var init := HourRing(hs, s, ss[..k], lanes, other);
      if ss[k].rolled then PutSlotAt(init, h, HourOfRing(RingAfter(s, lanes, Log(ss)), h, ss[k].read, lanes, other)) else init
  }

  // One more minute, with its hour recomputed or not, is one more step of the rings.
  lemma HourStep(hs: Slots<Use>, s: Slots<Use>, ss: seq<Step>, step: Step, lanes: nat, other: nat)
    requires |hs| > 0 && |s| > 0 && lanes >= 1 && Fits(ss + [step], lanes)
    ensures Fits(ss, lanes) && |step.m.recs| <= lanes
    ensures var minute, h := RingAfter(s, lanes, Log(ss + [step])), HourOf(step.m.ts);
      && minute == PutMinute(RingAfter(s, lanes, Log(ss)), lanes, step.m)
      && HourRing(hs, s, ss + [step], lanes, other) ==
           if step.rolled then PutSlotAt(HourRing(hs, s, ss, lanes, other), h, HourOfRing(minute, h, step.read, lanes, other))
           else HourRing(hs, s, ss, lanes, other)
  {
    hide HourOf, HourOfRing, LogOk, PutMinute, PutSlotAt;
    var more := ss + [step];
    FitsInit(more, lanes, |ss|);
    assert more[..|ss|] == ss && more[|ss|] == step;
  }

  // Slot k of the ring is the slot of the pieces of its last recomputed hour.
  lemma {:induction false} HourRingAt(hs: Slots<Use>, s: Slots<Use>, ss: seq<Step>, lanes: nat, other: nat, k: nat)
    requires k < |hs| && |s| > 0 && lanes >= 1 && Fits(ss, lanes)
    ensures var j := LastRolled(ss, |hs|, k);
      HourRing(hs, s, ss, lanes, other)[k] ==
        if j == 0 then hs[k] else HourSlot(HourCell(s, ss, lanes, other, |hs|, k), 3600 * HourOf(ss[j - 1].m.ts), lanes)
  {
    hide HourOf, HourPieces, HourSlot, LogOk, Mod, Log, RingAfter, Fits;
    if ss != [] {
      var n := |ss| - 1;
      var init := ss[..n];
      FitsInit(ss, lanes, n);
      HourRingAt(hs, s, init, lanes, other, k);
      assert ss[..|ss|] == ss;
      var j := LastRolled(init, |hs|, k);
      assert init[..j] == ss[..j];
    }
  }

  // The minutes of the hour from j on have no records.
  predicate NothingSince(l: seq<Minute>, h: int, j: nat) {
    forall i :: j <= i < |l| && HourOf(l[i].ts) == h ==> l[i].recs == []
  }

  lemma NothingYet(l: seq<Minute>, h: int)
    ensures NothingSince(l, h, |l|)
  {
  }

  lemma NothingMore(l: seq<Minute>, h: int, j: nat)
    requires j < |l|
    ensures var init, m := l[..|l| - 1], l[|l| - 1];
      NothingSince(l, h, j) <==> NothingSince(init, h, j) && (HourOf(m.ts) == h ==> m.recs == [])
  {
    hide HourOf;
    var init := l[..|l| - 1];
    if NothingSince(l, h, j) {
      forall i | j <= i < |init| && HourOf(init[i].ts) == h ensures init[i].recs == [] {
        assert l[i] == init[i];
      }
    }
  }

  lemma {:induction false} LaterHours(l: seq<Minute>, h: int, j: nat)
    requires j <= |l|
    ensures |HourLog(l[..j], h)| <= |HourLog(l, h)|
    ensures HourLog(l, h) == HourLog(l[..j], h) <==> NothingSince(l, h, j)
  {
    hide HourOf, NothingSince;
    if j == |l| {
      assert l[..j] == l;
      NothingYet(l, h);
    } else {
      var init, m := l[..|l| - 1], l[|l| - 1];
      LaterHours(init, h, j);
      assert init[..j] == l[..j];
      var more := if HourOf(m.ts) == h then m.recs else [];
      NothingMore(l, h, j);
      assert HourLog(l, h) == HourLog(init, h) + more;
      if HourLog(l, h) == HourLog(l[..j], h) {
        assert more == [];
        assert HourLog(init, h) + [] == HourLog(init, h);
      }
    }
  }

  lemma NoHour(lanes: nat, other: nat)
    requires lanes >= 1
    ensures F.Hour([], lanes, other) == []
  {
  }

  // After any run of minutes, whose hours were recomputed or not: a slot of the hour ring holds the
  // hour of its last recomputing, folded from the records of exactly the minutes the hour then had,
  // in at most the lanes there are and with all their energy, or from none if they could not be read.
  // Those are all the hour has now exactly if no minute with records has come to it since, whose hour
  // then was not recomputed.
  lemma ClientHour(hs: Slots<Use>, s: Slots<Use>, ss: seq<Step>, lanes: nat, other: nat, k: nat)
    requires |s| >= 60 && lanes >= 1 && k < |hs| && Fits(ss, lanes) && RingOk(s, lanes, []) && LastRolled(ss, |hs|, k) > 0
    ensures var n, j := |hs|, LastRolled(ss, |hs|, k);
      var h, cell := HourOf(ss[j - 1].m.ts), HourCell(s, ss, lanes, other, n, k);
      && HourRing(hs, s, ss, lanes, other)[k] == HourSlot(cell, 3600 * h, lanes)
      && (!ss[j - 1].read ==> cell == [])
      && (ss[j - 1].read ==>
            && cell == F.Hour(Pieces(HourLog(Log(ss)[..j], h)), lanes, other)
            && F.TotalWh(cell) == F.TotalWh(Pieces(HourLog(Log(ss)[..j], h))))
      && (HourLog(Log(ss), h) == HourLog(Log(ss)[..j], h) <==> NothingSince(Log(ss), h, j))
      && (forall i :: j <= i < |ss| && HourOf(ss[i].m.ts) == h ==> !ss[i].rolled)
  {
    hide HourOf, HourLog, F.Hour, F.TotalWh, Pieces, RingAfter, RingOk, Fits, LastRolled, HourRing, HourSlot, HourCell, Log, NothingSince;
    var j := LastRolled(ss, |hs|, k);
    HourRingAt(hs, s, ss, lanes, other, k);
    NoHour(lanes, other);
    CellIs(s, ss, lanes, other, |hs|, k);
    LogLength(ss);
    LaterHours(Log(ss), HourOf(ss[j - 1].m.ts), j);
    assert forall i :: j <= i < |ss| && HourOf(ss[i].m.ts) == HourOf(ss[j - 1].m.ts) ==> Mod(HourOf(ss[i].m.ts), |hs|) == k;
  }

  lemma LogLength(ss: seq<Step>)
    ensures |Log(ss)| == |ss|
  {
  }

  lemma CellIs(s: Slots<Use>, ss: seq<Step>, lanes: nat, other: nat, n: nat, k: nat)
    requires |s| >= 60 && lanes >= 1 && n > 0 && Fits(ss, lanes) && RingOk(s, lanes, []) && LastRolled(ss, n, k) > 0
    ensures var j := LastRolled(ss, n, k);
      var h, cell := HourOf(ss[j - 1].m.ts), HourCell(s, ss, lanes, other, n, k);
      && |Log(ss)| == |ss|
      && (!ss[j - 1].read ==> cell == F.Hour([], lanes, other))
      && (ss[j - 1].read ==>
            && cell == F.Hour(Pieces(HourLog(Log(ss)[..j], h)), lanes, other)
            && F.TotalWh(cell) == F.TotalWh(Pieces(HourLog(Log(ss)[..j], h))))
  {
    hide HourOf, HourLog, F.Hour, F.TotalWh, RingAfter, RingOk, LogOk, ReadHour, LastRolled, Pieces;
    var j := LastRolled(ss, n, k);
    var h, l := HourOf(ss[j - 1].m.ts), Log(ss)[..j];
    FitsInit(ss, lanes, j);
    RingAfterOk(s, lanes, l);
    HourReadsLog(RingAfter(s, lanes, l), lanes, l);
    F.HourKeeps(Pieces(HourLog(l, h)), lanes, other);
    NoPieces();
  }

  lemma NoPieces()
    ensures Pieces([]) == []
  {
  }
}

/** The clients' hours as they are read back: what the records of a slot of the hour ring say. */
module HourRecords {
  import opened Options
  import opened Rings
  import H = HourTier
  import opened ClientTotals
  import opened ClientHours
  import F = ClientFold

  // ---- Sums over records ----

  // A record whose energy is not a number counts as none.
  function SumWh(recs: Records): real {
    if recs == [] then 0.0
    else
      var wh := recs[|recs| - 1].rec.wh;
      SumWh(recs[..|recs| - 1]) + if wh.Some? then wh.value else 0.0
  }

  function SumBusy(recs: Records): nat {
    if recs == [] then 0 else SumBusy(recs[..|recs| - 1]) + recs[|recs| - 1].rec.busy
  }

  function SumTokens(recs: Records): nat {
    if recs == [] then 0 else SumTokens(recs[..|recs| - 1]) + recs[|recs| - 1].rec.tokens
  }

  // The records of one client and model.
  function OfKey(recs: Records, c: nat, m: nat): Records {
    if recs == [] then []
    else
      var r := recs[|recs| - 1];
      OfKey(recs[..|recs| - 1], c, m) + if r.rec.client == c && r.rec.model == m then [r] else []
  }

  function Pairs(recs: Records): set<(nat, nat)> {
    set r | r in recs :: (r.rec.client, r.rec.model)
  }

  predicate SameKey(a: Record, b: Record) {
    a.rec.client == b.rec.client && a.rec.model == b.rec.model
  }

  function Capped(v: nat): nat {
    if v <= 0xFFFF_FFFF then v else 0xFFFF_FFFF
  }

  // The record has the energy of its client's and model's records, and their busy time and tokens up
  // to the ceiling of a 32-bit field.
  predicate HoldsKey(r: Record, recs: Records) {
    var of := OfKey(recs, r.rec.client, r.rec.model);
    of != [] && r.rec.wh == Some(SumWh(of)) && r.rec.busy == Capped(SumBusy(of)) && r.rec.tokens == Capped(SumTokens(of))
  }

  // The lanes that are a client's and model's own: all that are used, or all but the last if there
  // are more of them than lanes.
  function Own(recs: Records, lanes: nat): nat
    requires lanes >= 1
  {
    if |Pairs(recs)| > lanes then lanes - 1 else |Pairs(recs)|
  }

  function Used(recs: Records, lanes: nat): nat {
    if |Pairs(recs)| > lanes then lanes else |Pairs(recs)|
  }

  // The slot is the hour h of the records: one record for each client and model that has a lane.
  ghost predicate HourHeld(slot: Records, recs: Records, h: int, lanes: nat, other: nat)
    requires lanes >= 1
  {
    var own, used := Own(recs, lanes), Used(recs, lanes);
    && |slot| == lanes
    && (forall i :: 0 <= i < used ==> slot[i].ts == 3600 * h)
    && (forall i :: used <= i < lanes ==> slot[i] == ZERO)
    && (forall i :: 0 <= i < own ==> HoldsKey(slot[i], recs))
    && (forall i, j :: 0 <= i < j < own ==> !SameKey(slot[i], slot[j]))
    && (own == used ==> forall x :: x in recs ==> exists i :: 0 <= i < own && SameKey(slot[i], x))
    && (own < used ==> slot[own].rec.client == other && slot[own].rec.model == 0)
    && (own < used ==> forall x, i :: x in recs && 0 <= i < own && (forall j :: 0 <= j < own ==> !SameKey(slot[j], x)) ==>
          slot[i].rec.wh.Some? && slot[i].rec.wh.value >= SumWh(OfKey(recs, x.rec.client, x.rec.model)))
    && SumWh(slot[..used]) == SumWh(recs)
    && (SumBusy(slot[..used]) == SumBusy(recs) <==>
          && (forall x :: x in recs ==> SumBusy(OfKey(recs, x.rec.client, x.rec.model)) <= 0xFFFF_FFFF)
          && (own < used ==> SumBusy(recs) - SumBusy(slot[..own]) <= 0xFFFF_FFFF))
    && (SumTokens(slot[..used]) == SumTokens(recs) <==>
          && (forall x :: x in recs ==> SumTokens(OfKey(recs, x.rec.client, x.rec.model)) <= 0xFFFF_FFFF)
          && (own < used ==> SumTokens(recs) - SumTokens(slot[..own]) <= 0xFFFF_FFFF))
  }

  // ---- Records and pieces ----

  lemma PiecesPush(init: Records, r: Record)
    ensures Pieces(init + [r]) == Pieces(init) + [PieceOf(r)]
  {
  }

  lemma {:induction false} SumsPieces(recs: Records)
    ensures SumWh(recs) == F.TotalWh(Pieces(recs)) && SumBusy(recs) == F.TotalBusy(Pieces(recs)) && SumTokens(recs) == F.TotalTokens(Pieces(recs))
  {
    hide Pieces;
    if recs == [] {
      NoPieces();
    } else {
      var init, r := recs[..|recs| - 1], recs[|recs| - 1];
      assert recs == init + [r];
      SumsPieces(init);
      PiecesPush(init, r);
    }
  }

  lemma {:induction false} OfKeyPieces(recs: Records, c: nat, m: nat)
    ensures F.OfPair(Pieces(recs), c, m) == Pieces(OfKey(recs, c, m))
  {
    hide Pieces;
    if recs == [] {
      NoPieces();
    } else {
      var init, r := recs[..|recs| - 1], recs[|recs| - 1];
      assert recs == init + [r];
      OfKeyPieces(init, c, m);
      PiecesPush(init, r);
      F.OfPairPush(Pieces(init), PieceOf(r), c, m);
      PiecesPush(OfKey(init, c, m), r);
      assert OfKey(init, c, m) + [] == OfKey(init, c, m) && Pieces(OfKey(init, c, m)) + [] == Pieces(OfKey(init, c, m));
    }
  }

  lemma KeySums(recs: Records, c: nat, m: nat)
    ensures var of, ps := OfKey(recs, c, m), F.OfPair(Pieces(recs), c, m);
      && (of == [] <==> ps == []) && SumWh(of) == F.TotalWh(ps) && SumBusy(of) == F.TotalBusy(ps) && SumTokens(of) == F.TotalTokens(ps)
  {
    OfKeyPieces(recs, c, m);
    SumsPieces(OfKey(recs, c, m));
  }

  lemma PiecesIn(recs: Records)
    ensures forall r :: r in recs ==> PieceOf(r) in Pieces(recs)
    ensures forall p :: p in Pieces(recs) ==> exists r :: r in recs && PieceOf(r) == p
  {
    var ps := Pieces(recs);
    forall r | r in recs ensures PieceOf(r) in ps {
      var i :| 0 <= i < |recs| && recs[i] == r;
      assert ps[i] == PieceOf(r);
    }
    forall p | p in ps ensures exists r :: r in recs && PieceOf(r) == p {
      var i :| 0 <= i < |ps| && ps[i] == p;
      assert recs[i] in recs;
    }
  }

  // ---- How many pairs there are ----

  function PiecePairs(ps: seq<F.Piece>): set<(nat, nat)> {
    set p | p in ps :: (p.client, p.model)
  }

  lemma {:induction false} ApartCount(ps: seq<F.Piece>)
    requires F.Apart(ps)
    ensures |PiecePairs(ps)| == |ps|
  {
    if ps == [] {
      assert PiecePairs(ps) == {};
    } else {
      var init, p := ps[..|ps| - 1], ps[|ps| - 1];
      ApartCount(init);
      assert ps == init + [p];
      assert PiecePairs(ps) == PiecePairs(init) + {(p.client, p.model)};
      forall k | 0 <= k < |init| ensures !F.SamePair(init[k], p) { assert ps[k] == init[k]; }
    }
  }

  lemma PairCount(recs: Records)
    ensures |Pairs(recs)| == |F.PairSums(Pieces(recs))|
  {
    hide Pieces, F.PairSums, F.StoreAll, F.IsSum;
    var ps := Pieces(recs);
    var st := F.StoreAll(F.PairSums(ps));
    F.StoredSums(ps);
    ApartCount(st);
    PiecesIn(recs);
    forall c: nat, m: nat ensures (c, m) in Pairs(recs) <==> (c, m) in PiecePairs(st) {
      if (c, m) in Pairs(recs) {
        var r :| r in recs && (r.rec.client, r.rec.model) == (c, m);
        var q :| q in st && F.SamePair(q, PieceOf(r));
        assert (q.client, q.model) in PiecePairs(st);
      }
      if (c, m) in PiecePairs(st) {
        var q :| q in st && (q.client, q.model) == (c, m);
        SumSome(q, ps);
        var x :| x in ps && x.client == c && x.model == m;
        var r :| r in recs && PieceOf(r) == x;
        assert (r.rec.client, r.rec.model) in Pairs(recs);
      }
    }
    assert Pairs(recs) == PiecePairs(st);
  }

  lemma SumSome(q: F.Piece, ps: seq<F.Piece>)
    requires F.IsSum(q, ps)
    ensures exists x :: x in ps && x.client == q.client && x.model == q.model
  {
    F.OfPairSome(ps, q.client, q.model);
  }

  // ---- The slot ----

  lemma SlotIs(ps: seq<F.Piece>, start: int, lanes: nat)
    requires |ps| <= lanes
    ensures var slot := HourSlot(ps, start, lanes);
      && |slot| == lanes
      && (forall i :: 0 <= i < |ps| ==> slot[i].ts == start && slot[i].rec.wh == Some(ps[i].wh) && PieceOf(slot[i]) == ps[i])
      && (forall i :: |ps| <= i < lanes ==> slot[i] == ZERO)
  {
  }

  lemma SlotPieces(slot: Records, ps: seq<F.Piece>, n: nat)
    requires n <= |ps| <= |slot| && forall i :: 0 <= i < |ps| ==> PieceOf(slot[i]) == ps[i]
    ensures SumWh(slot[..n]) == F.TotalWh(ps[..n]) && SumBusy(slot[..n]) == F.TotalBusy(ps[..n]) && SumTokens(slot[..n]) == F.TotalTokens(ps[..n])
  {
    SumsPieces(slot[..n]);
    assert Pieces(slot[..n]) == ps[..n];
  }

  lemma LaneHolds(r: Record, p: F.Piece, recs: Records)
    requires F.IsSum(p, Pieces(recs)) && PieceOf(r) == p && r.rec.wh == Some(p.wh)
    ensures HoldsKey(r, recs) && p.wh == SumWh(OfKey(recs, p.client, p.model))
  {
    hide F.TotalWh, F.TotalBusy, F.TotalTokens, Pieces, OfKey, F.OfPair, SumWh, SumBusy, SumTokens;
    KeySums(recs, p.client, p.model);
  }

  lemma HourLength(recs: Records, lanes: nat, other: nat)
    requires lanes >= 1
    ensures |F.Hour(Pieces(recs), lanes, other)| == Used(recs, lanes) && F.OwnLanes(Pieces(recs), lanes) == Own(recs, lanes)
    ensures |F.PairSums(Pieces(recs))| > lanes <==> Own(recs, lanes) < Used(recs, lanes)
  {
    hide F.Hour, Pieces, F.PairSums, F.IsSum, F.Apart, Pairs;
    PairCount(recs);
    F.HourHolds(Pieces(recs), lanes, other);
  }

  // Every lane but the shared one is a client's and model's, each its own; those without one are no
  // larger.
  lemma LanesHold(recs: Records, h: int, lanes: nat, other: nat, slot: Records)
    requires lanes >= 1
    requires |F.Hour(Pieces(recs), lanes, other)| <= lanes && slot == HourSlot(F.Hour(Pieces(recs), lanes, other), 3600 * h, lanes)
    ensures var own, used := Own(recs, lanes), Used(recs, lanes);
      && |slot| == lanes && own <= used <= lanes
      && (forall i :: 0 <= i < own ==> HoldsKey(slot[i], recs))
      && (forall i, j :: 0 <= i < j < own ==> !SameKey(slot[i], slot[j]))
      && (own == used ==> forall x :: x in recs ==> exists i :: 0 <= i < own && SameKey(slot[i], x))
      && (own < used ==> slot[own].rec.client == other && slot[own].rec.model == 0)
      && (own < used ==> forall x, i :: x in recs && 0 <= i < own && (forall j :: 0 <= j < own ==> !SameKey(slot[j], x)) ==>
            slot[i].rec.wh.Some? && slot[i].rec.wh.value >= SumWh(OfKey(recs, x.rec.client, x.rec.model)))
  {
    hide F.Hour, Pieces, F.PairSums, F.IsSum, HourSlot, HoldsKey, Own, Used, OfKey, F.OfPair, SumWh, F.TotalWh, F.OwnLanes;
    var ps := Pieces(recs);
    var hour, own := F.Hour(ps, lanes, other), Own(recs, lanes);
    HourLength(recs, lanes, other);
    F.HourHolds(ps, lanes, other);
    SlotIs(hour, 3600 * h, lanes);
    PiecesIn(recs);
    forall i | 0 <= i < own ensures HoldsKey(slot[i], recs) { LaneHolds(slot[i], hour[i], recs); }
    forall i, j | 0 <= i < j < own ensures !SameKey(slot[i], slot[j]) {
      assert hour[..own][i] == hour[i] && hour[..own][j] == hour[j];
    }
    if own == Used(recs, lanes) {
      forall x | x in recs ensures exists i :: 0 <= i < own && SameKey(slot[i], x) {
        assert PieceOf(x) in ps;
        var q :| q in hour && F.SamePair(q, PieceOf(x));
        var i :| 0 <= i < |hour| && hour[i] == q;
        assert SameKey(slot[i], x);
      }
    } else {
      forall x, i | x in recs && 0 <= i < own && (forall j :: 0 <= j < own ==> !SameKey(slot[j], x))
        ensures slot[i].rec.wh.Some? && slot[i].rec.wh.value >= SumWh(OfKey(recs, x.rec.client, x.rec.model))
      {
        assert PieceOf(x) in ps;
        forall j | 0 <= j < own ensures !F.SamePair(hour[j], PieceOf(x)) { assert PieceOf(slot[j]) == hour[j]; }
        KeySums(recs, x.rec.client, x.rec.model);
      }
    }
  }

  // The records of a slot of the hour ring, in terms of the records it was computed from.
  lemma SlotHolds(recs: Records, h: int, lanes: nat, other: nat)
    requires lanes >= 1 && |F.Hour(Pieces(recs), lanes, other)| <= lanes
    ensures HourHeld(HourSlot(F.Hour(Pieces(recs), lanes, other), 3600 * h, lanes), recs, h, lanes, other)
  {
    hide F.Hour, Pieces, F.PairSums, HourSlot, HoldsKey, Own, Used, OfKey, F.OfPair, SumWh, SumBusy, SumTokens, F.TotalWh, F.TotalBusy, F.TotalTokens, F.OwnLanes, SameKey;
    var ps := Pieces(recs);
    var hour := F.Hour(ps, lanes, other);
    var slot := HourSlot(hour, 3600 * h, lanes);
    HourLength(recs, lanes, other);
    LanesHold(recs, h, lanes, other, slot);
    SlotIs(hour, 3600 * h, lanes);
    F.HourTotals(ps, lanes, other);
    SumsPieces(recs);
    SlotPieces(slot, hour, |hour|);
    assert hour[..|hour|] == hour;
    SlotPieces(slot, hour, Own(recs, lanes));
    BusyInPairs(recs);
  }

  lemma BusyInPairs(recs: Records)
    ensures (forall x :: x in recs ==> SumBusy(OfKey(recs, x.rec.client, x.rec.model)) <= 0xFFFF_FFFF) <==>
            (forall p :: p in Pieces(recs) ==> F.TotalBusy(F.OfPair(Pieces(recs), p.client, p.model)) <= F.MAX_UINT32)
    ensures (forall x :: x in recs ==> SumTokens(OfKey(recs, x.rec.client, x.rec.model)) <= 0xFFFF_FFFF) <==>
            (forall p :: p in Pieces(recs) ==> F.TotalTokens(F.OfPair(Pieces(recs), p.client, p.model)) <= F.MAX_UINT32)
  {
    hide Pieces, OfKey, F.OfPair, SumWh, SumBusy, SumTokens, F.TotalWh, F.TotalBusy, F.TotalTokens;
    PiecesIn(recs);
    forall x | x in recs ensures PieceOf(x) in Pieces(recs)
      ensures SumBusy(OfKey(recs, x.rec.client, x.rec.model)) == F.TotalBusy(F.OfPair(Pieces(recs), x.rec.client, x.rec.model))
      ensures SumTokens(OfKey(recs, x.rec.client, x.rec.model)) == F.TotalTokens(F.OfPair(Pieces(recs), x.rec.client, x.rec.model))
    {
      KeySums(recs, x.rec.client, x.rec.model);
    }
  }

  // An hour recomputed from the ring holds, lane by lane, what the records read for it come to.
  lemma RecomputedHolds(s: Slots<Use>, h: int, lanes: nat, other: nat)
    requires lanes >= 1
    ensures HourHeld(HourOfRing(s, h, true, lanes, other), ReadHour(s, h), h, lanes, other)
    ensures var slot := HourOfRing(s, h, false, lanes, other);
      |slot| == lanes && forall i :: 0 <= i < lanes ==> slot[i] == ZERO
  {
    hide F.Hour, Pieces, ReadHour, HourHeld, HourSlot;
    F.HourKeeps(Pieces(ReadHour(s, h)), lanes, other);
    SlotHolds(ReadHour(s, h), h, lanes, other);
    NoPieces();
    NoHour(lanes, other);
    assert HourPieces(s, h, false, lanes, other) == [];
    SlotIs([], 3600 * h, lanes);
  }

  // After any run of minutes, read back: a slot of the hour ring has one record for each client and
  // model that kept a lane, with the sums of that client's and model's records in the minutes the hour
  // then had, and the energy, busy time and tokens of all of them, the last two exactly if no field
  // passes its ceiling; or none at all if they could not be read.
  lemma ClientHourRecords(hs: Slots<Use>, s: Slots<Use>, ss: seq<Step>, lanes: nat, other: nat, k: nat)
    requires |s| >= 60 && lanes >= 1 && k < |hs| && Fits(ss, lanes) && RingOk(s, lanes, []) && LastRolled(ss, |hs|, k) > 0
    ensures var j := LastRolled(ss, |hs|, k);
      var h, slot := H.HourOf(ss[j - 1].m.ts), HourRing(hs, s, ss, lanes, other)[k];
      && |Log(ss)| == |ss|
      && (ss[j - 1].read ==> HourHeld(slot, HourLog(Log(ss)[..j], h), h, lanes, other))
      && (!ss[j - 1].read ==> |slot| == lanes && forall i :: 0 <= i < lanes ==> slot[i] == ZERO)
  {
    hide H.HourOf, HourLog, F.Hour, Pieces, RingAfter, RingOk, Fits, LastRolled, HourRing, HourSlot, HourCell, Log, NothingSince, HourHeld;
    var j := LastRolled(ss, |hs|, k);
    var h := H.HourOf(ss[j - 1].m.ts);
    LogLength(ss);
    ClientHour(hs, s, ss, lanes, other, k);
    SlotIs([], 3600 * h, lanes);
    if ss[j - 1].read {
      F.HourKeeps(Pieces(HourLog(Log(ss)[..j], h)), lanes, other);
      SlotHolds(HourLog(Log(ss)[..j], h), h, lanes, other);
    }
  }
}

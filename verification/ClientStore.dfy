/** The client counters as the store keeps them: one minute's write, file by file, and the reload. */
module ClientStore {
  import opened Options
  import opened Rings
  import opened RingFile
  import opened ClientTotals
  import opened CounterRuns
  import opened ClientHours
  import opened HourRecords
  import H = HourTier

  class Counters {
    const ring: Ring<Use>
    const hour: Ring<Use>
    var file: Option<Totals>
    var totals: Option<Totals>
    ghost var log: seq<Minute>
    ghost var inFile: Tally
    ghost var inMemory: Tally
    ghost var blind: bool

    ghost function View(): World
      reads this, ring.file
    {
      World(ring.file[..], ring.lanes, file, totals, log, inFile, inMemory, blind)
    }

    // Both rings have the same lanes, and files of their own.
    ghost predicate Valid()
      reads ring.file, hour.file
    {
      ring.Valid() && hour.Valid() && ring.period == 60 && ring.lanes == hour.lanes >= 1 && ring.file != hour.file
    }

    constructor (slots: nat, hours: nat, lanes: nat)
      requires slots > 0 && hours > 0 && lanes > 0
      ensures fresh(ring) && fresh(ring.file) && fresh(hour) && fresh(hour.file) && Valid() && View() == Fresh(slots, lanes)
    {
      ring := new Ring(slots, lanes, 60, ZERO);
      hour := new Ring(hours, lanes, 3600, ZERO);
      file, totals, log := None, None, [];
      inFile, inMemory, blind := Tally([], false), Tally([], false), false;
      new;
      assert ring.file[..] == Fresh(slots, lanes).slots;
    }

    method Add(ts: int, recs: Records)
      requires totals.Some?
      modifies this`totals
      ensures totals == Some(Totals(old(totals.value.since), ts, AddRecs(old(totals.value.rows), recs)))
    {
      hide AddRec;
      var rows := totals.value.rows;
      for i := 0 to |recs|
        invariant rows == AddRecs(old(totals.value.rows), recs[..i])
        invariant totals == old(totals)
      {
        assert recs[..i + 1][..i] == recs[..i];
        rows := AddRec(rows, recs[i]);
      }
      assert recs[..|recs|] == recs;
      totals := Some(Totals(totals.value.since, ts, rows));
    }

    // The file is replaced by a rename, or stays as it was.
    method SaveTotals() returns (ok: bool)
      requires totals.Some?
      modifies this`file
      ensures file == if ok then totals else old(file)
    {
      ok := *;
      if ok { file := totals; }
    }

    method Count(m: Minute) returns (ghost saved: bool)
      requires totals.Some?
      modifies this`totals, this`file, this`inFile, this`inMemory, this`blind
      ensures totals == Some(Counted(old(totals.value), m))
      ensures file == if saved && m.ts > old(totals.value.through) then totals else old(file)
      ensures inMemory == CountedTally(old(totals.value), old(inMemory), old(blind), m)
      ensures inFile == if saved && m.ts > old(totals.value.through) then inMemory else old(inFile)
      ensures blind == (old(blind) && m.ts <= old(totals.value.through))
    {
      saved := true;
      if m.ts <= totals.value.through {
        return;
      }
      Add(m.ts, m.recs);
      inMemory, blind := CountedTally(old(totals.value), inMemory, blind, m), false;
      var ok := SaveTotals();
      saved := ok;
      if saved { inFile := inMemory; }
    }

    method ReadPieces(h: int) returns (ps: seq<F.Piece>, ghost read: bool)
      requires ring.Valid() && ring.period == 60
      ensures ps == Pieces(if read then ReadHour(ring.file[..], h) else [])
    {
      hide Written, ReadWindow;
      var recs;
      recs, read := ring.Read(3600 * h, 3600 * h + 3600);
      ps := [];
      NothingWritten();
      for i := 0 to |recs|
        invariant ps == Pieces(Written(recs[..i]))
      {
        WrittenPush(recs[..i], recs[i]);
        assert recs[..i + 1] == recs[..i] + [recs[i]];
        if recs[i].ts != 0 { ps := ps + [PieceOf(recs[i])]; }
      }
      assert recs[..|recs|] == recs;
    }

    // The hour of ts, recomputed from the minutes the ring has, or from none if it cannot be read; a
    // failure leaves it as it was.
    method RollUpHour(ts: int, other: nat) returns (ok: bool, ghost read: bool)
      requires Valid() && ts >= 0
      modifies hour.file
      ensures Valid()
      ensures hour.file[..] == if ok then PutSlotAt(old(hour.file[..]), H.HourOf(ts), HourOfRing(ring.file[..], H.HourOf(ts), read, hour.lanes, other))
                               else old(hour.file[..])
      ensures ok && read ==>
        HourHeld(hour.file[Mod(H.HourOf(ts), hour.file.Length)], ReadHour(ring.file[..], H.HourOf(ts)), H.HourOf(ts), hour.lanes, other)
    {
      hide F.Hour, ReadHour, PutSlotAt, HourSlot, Pieces, F.PairSums, F.StoreAll, F.Dropped, H.HourOf, F.TotalWh, F.TotalBusy, F.TotalTokens, F.BusyFits, F.TokensFit, HourHeld;
      HourStart(ts);
      var hr, start := ts / 3600, ts - ts % 3600;
      var ps;
      ps, read := ReadPieces(hr);
      F.HourKeeps(ps, hour.lanes, other);
      var h := F.RollUpHour(ps, hour.lanes, other);
      HourSlotLanes(h, start, hour.lanes);
      RecomputedHolds(ring.file[..], hr, hour.lanes, other);
      ghost var was := hour.file[..];
      ok := hour.PutSlot(hr, HourSlot(h, start, hour.lanes));
      if ok { PutSlotHere(was, hr, HourSlot(h, start, hour.lanes)); }
    }

    // One minute: the slot is written, it is counted, and its hour is recomputed; the process can
    // stop in between.
    method WriteMinute(m: Minute, other: nat) returns (ghost fate: Fate, ghost rolled: bool, ghost read: bool)
      requires totals.Some? && Valid() && |m.recs| <= ring.lanes && m.ts >= 0
      modifies this, ring.file, hour.file
      ensures Valid() && View() == Wrote(old(View()), m, fate)
      ensures rolled ==> fate.Done? || fate.NotSaved?
      ensures hour.file[..] == if rolled then PutSlotAt(old(hour.file[..]), H.HourOf(m.ts), HourOfRing(ring.file[..], H.HourOf(m.ts), read, hour.lanes, other))
                               else old(hour.file[..])
    {
      hide AddRecs, HourOfRing, PutSlotAt;
      rolled, read := false, false;
      var ok := ring.PutSlot(TruncDiv(m.ts, 60), SlotOf(m, ring.lanes));
      if !ok {
        fate := NotPut;
        return;
      }
      log := log + [m];
      var stops: bool := *;
      if stops {
        totals, inMemory, blind := None, Tally([], false), false;
        fate := PutOnly;
        return;
      }
      ghost var saved := Count(m);
      stops := *;
      if stops {
        totals, inMemory, blind := None, Tally([], false), false;
        fate := if saved then SavedLast else PutOnly;
        return;
      }
      fate := if saved then Done else NotSaved;
      ok, read := RollUpHour(m.ts, other);
      rolled := ok;
    }

    method ReadAll() returns (recs: Records, ghost read: bool)
      requires ring.Valid()
      ensures recs == if read then ReadEvery(ring.file[..]) else []
    {
      hide Flatten, Oldest;
      var ok: bool := *;
      read := ok;
      if !ok {
        return [], false;
      }
      var buf := ring.All();
      var kept: Records := [];
      for i := 0 to |buf|
        invariant kept == Written(buf[..i])
      {
        assert buf[..i + 1][..i] == buf[..i];
        if buf[i].ts != 0 { kept := kept + [buf[i]]; }
      }
      assert buf[..|buf|] == buf;
      recs := Oldest(kept);
    }

    // The minutes past through that the ring has, each with its records; none if it cannot be read.
    method ReadPast(through: int) returns (minutes: seq<int>, pending: map<int, Records>, ghost read: bool)
      requires ring.Valid()
      ensures MinutesOf(minutes, pending) == if read then Pending(ring.file[..], through) else []
    {
      hide ReadEvery, GroupStep;
      var recs;
      recs, read := ReadAll();
      minutes, pending := [], map[];
      for i := 0 to |recs|
        invariant Grouped(minutes, pending) == Group(recs[..i], through)
      {
        assert recs[..i + 1][..i] == recs[..i];
        GroupStepIs(minutes, pending, recs[i], through);
        if recs[i].ts > through {
          var ts := recs[i].ts;
          if ts !in pending {
            minutes, pending := minutes + [ts], pending[ts := [recs[i]]];
          } else {
            pending := pending[ts := pending[ts] + [recs[i]]];
          }
        }
      }
      assert recs[..|recs|] == recs;
    }

    // The totals from the file, or new ones, and then every minute the ring has past them.
    method LoadTotals(since: int) returns (ghost saved: bool, ghost read: bool)
      requires totals.None? && ring.Valid()
      modifies this`totals, this`file, this`inFile, this`inMemory, this`blind
      ensures View() == Opened(old(View()), since, saved, read)
    {
      hide AddRecs, Pending, MinutesOf;
      ghost var was := View();
      var found := file.Some?;
      totals := if found then file else Some(Totals(since, since - 60, map[]));
      var base := totals.value;
      var minutes, pending;
      minutes, pending, read := ReadPast(base.through);
      ghost var p := MinutesOf(minutes, pending);
      for i := 0 to |minutes|
        invariant totals == Some(Totals(base.since, if i == 0 then base.through else p[i - 1].ts, AddMinutes(base.rows, p[..i])))
        invariant file == old(file) && inFile == old(inFile)
      {
        MinutesOfAt(minutes, pending, i);
        assert p[..i + 1][..i] == p[..i];
        Add(minutes[i], if minutes[i] in pending then pending[minutes[i]] else []);
      }
      assert p[..|p|] == p;
      inMemory, blind := LoadedTally(was, since, read), Blinds(was, since, read);
      saved := true;
      if !found || |minutes| > 0 {
        var ok := SaveTotals();
        saved := ok;
        if saved { inFile := inMemory; }
      }
    }
  }

  lemma PutSlotHere(s: Slots<Use>, bucket: int, cells: Records)
    requires |s| > 0
    ensures PutSlotAt(s, bucket, cells)[Mod(bucket, |s|)] == cells
  {
    hide Mod;
  }

  lemma HourSlotLanes(ps: seq<F.Piece>, start: int, lanes: nat)
    requires |ps| <= lanes
    ensures |HourSlot(ps, start, lanes)| == lanes
  {
  }

  lemma HourStart(ts: int)
    requires ts >= 0
    ensures ts - ts % 3600 == 3600 * H.HourOf(ts) && ts / 3600 == H.HourOf(ts)
  {
  }

  lemma NothingWritten()
    ensures Pieces(Written([])) == []
  {
  }

  lemma WrittenPush(c: Records, x: Record)
    ensures Pieces(Written(c + [x])) == Pieces(Written(c)) + if x.ts != 0 then [PieceOf(x)] else []
  {
    assert (c + [x])[..|c|] == c;
  }

  lemma GroupStepIs(minutes: seq<int>, pending: map<int, Records>, r: Record, through: int)
    ensures GroupStep(Grouped(minutes, pending), r, through) ==
      if r.ts <= through then Grouped(minutes, pending)
      else if r.ts in pending then Grouped(minutes, pending[r.ts := pending[r.ts] + [r]])
      else Grouped(minutes + [r.ts], pending[r.ts := [r]])
  {
  }
}

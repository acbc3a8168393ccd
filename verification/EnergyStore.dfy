/** The energy store: a minute is written to its rings, and its hour is recomputed from them. */
module EnergyStore {
  import opened Rings
  import opened RingFile
  import opened Tiers
  import opened HourTier
  import opened EnergyTiers

  // ---- Aggregation ----

  method SumNode(recs: Slot<NodeRec>, start: int) returns (c: Cell<NodeRec>)
    ensures c == AggregateNode(recs, start)
  {
    var ws, covered := 0.0, 0;
    for i := 0 to |recs|
      invariant ws == SumC(NodeWs, recs[..i]) && covered == NodeCovered(recs[..i])
    {
      assert recs[..i + 1][..i] == recs[..i];
      ws := ws + recs[i].rec.watts * recs[i].rec.covered as real;
      covered := covered + recs[i].rec.covered;
    }
    assert recs[..|recs|] == recs;
    c := Cell(start, NodeRec(if covered > 0 then ws / covered as real else 0.0, ClampCovered(covered)));
  }

  predicate Label(recs: Slot<GpuRec>, m: nat) {
    && (exists j :: 0 <= j < |recs| && recs[j].rec.model == m)
    && forall i :: 0 <= i < |recs| ==> recs[i].rec.model == m || Beats(recs, m, recs[i].rec.model)
  }

  lemma OneLabel(recs: Slot<GpuRec>, m: nat)
    requires Label(recs, m)
    ensures m == BestModel(recs, |recs|)
  {
    hide ModelTime, BestModel;
    var b, j :| 0 <= j < |recs| && recs[j].rec.model == m && b == BestModel(recs, |recs|);
    BestIsBest(recs, |recs|, j);
  }

  // The time of each model, in a map as it is read.
  ghost predicate Timed(times: map<nat, nat>, recs: Slot<GpuRec>) {
    && (forall m :: m in times ==> times[m] == ModelTime(recs, m) && exists j :: 0 <= j < |recs| && recs[j].rec.model == m)
    && (forall j :: 0 <= j < |recs| ==> recs[j].rec.model in times)
  }

  lemma TimedPush(times: map<nat, nat>, recs: Slot<GpuRec>, c: Cell<GpuRec>)
    requires Timed(times, recs)
    ensures var m := c.rec.model;
      Timed(times[m := (if m in times then times[m] else 0) + c.rec.covered], recs + [c])
  {
    var more, m := recs + [c], c.rec.model;
    assert more[..|recs|] == recs;
    var t := times[m := (if m in times then times[m] else 0) + c.rec.covered];
    if m !in times { NoTime(recs, m); }
    forall x | x in t ensures t[x] == ModelTime(more, x) && exists j :: 0 <= j < |more| && more[j].rec.model == x {
      if x == m {
        assert more[|recs|].rec.model == x;
      } else {
        var j :| 0 <= j < |recs| && recs[j].rec.model == x;
        assert more[j].rec.model == x;
      }
    }
  }

  lemma {:induction false} NoTime(recs: Slot<GpuRec>, m: nat)
    requires forall j :: 0 <= j < |recs| ==> recs[j].rec.model != m
    ensures ModelTime(recs, m) == 0
  {
    if recs != [] { NoTime(recs[..|recs| - 1], m); }
  }

  // The label, whatever order the map is gone through in.
  method PickModel(times: map<nat, nat>, ghost recs: Slot<GpuRec>) returns (model: nat)
    requires Timed(times, recs) && recs != []
    ensures model == BestModel(recs, |recs|)
  {
    hide ModelTime, BestModel;
    var best: int := -1;
    model := 0;
    var left := times.Keys;
    while left != {}
      invariant left <= times.Keys
      invariant best == -1 ==> left == times.Keys
      invariant best != -1 ==> model in times && model !in left && best == times[model]
      invariant forall m :: m in times && m !in left ==> m == model || Beats(recs, model, m)
      decreases left
    {
      var m :| m in left;
      left := left - {m};
      if times[m] > best || (times[m] == best && m < model) {
        model, best := m, times[m];
      }
    }
    assert recs[0].rec.model in times;
    OneLabel(recs, model);
  }

  method SumGpu(recs: Slot<GpuRec>, start: int) returns (c: Cell<GpuRec>)
    ensures c == AggregateGpu(recs, start)
  {
    hide ModelTime, BestModel, Timed;
    if |recs| == 0 {
      return Cell(start, GpuRec(0, 0, 0.0, 0.0, 0));
    }
    var attr, raw, covered := 0.0, 0.0, 0;
    var times: map<nat, nat> := map[];
    NoneTimed();
    for i := 0 to |recs|
      invariant attr == SumC(GpuAttr, recs[..i]) && raw == SumC(GpuRaw, recs[..i]) && covered == GpuCovered(recs[..i])
      invariant Timed(times, recs[..i])
    {
      var r := recs[i].rec;
      assert recs[..i + 1][..i] == recs[..i];
      assert recs[..i + 1] == recs[..i] + [recs[i]];
      TimedPush(times, recs[..i], recs[i]);
      attr, raw := attr + r.attr * r.covered as real, raw + r.raw * r.covered as real;
      covered := covered + r.covered;
      times := times[r.model := (if r.model in times then times[r.model] else 0) + r.covered];
    }
    assert recs[..|recs|] == recs;
    var model := PickModel(times, recs);
    c := Cell(start, GpuRec(recs[0].rec.gpu, model, if covered > 0 then attr / covered as real else 0.0,
                            if covered > 0 then raw / covered as real else 0.0, ClampCovered(covered)));
  }

  lemma NoneTimed()
    ensures Timed(map[], [])
  {
  }

  // ---- A step of the store, lane by lane ----

  // The cards the store knows, each with its lane.
  function Known(lanes: map<nat, nat>, gpus: seq<GpuRec>): seq<(nat, GpuRec)> {
    if gpus == [] then []
    else
      var g := gpus[|gpus| - 1];
      Known(lanes, gpus[..|gpus| - 1]) + if g.gpu in lanes then [(lanes[g.gpu], g)] else []
  }

  // What a lane of an hour slot becomes when the hour of ts is recomputed, its minutes read or not.
  function Rolled<R>(tr: Track<R>, minute: Slots<R>, read: bool, ts: int, n: nat, k: nat, was: Cell<R>): Cell<R>
    requires n > 0
  {
    var h := HourOf(ts);
    var recs := if read then Select(tr.own, ReadWindow(minute, 60, 3600 * h, 3600 * h + 3600)) else [];
    if Mod(h, n) == k && (tr.always || recs != []) then tr.agg(recs, 3600 * h) else was
  }

  lemma {:induction false} KnownPrefix(lanes: map<nat, nat>, gpus: seq<GpuRec>, i: nat)
    requires i <= |gpus|
    ensures Known(lanes, gpus[..i]) <= Known(lanes, gpus)
  {
    if i == |gpus| {
      assert gpus[..i] == gpus;
    } else {
      KnownPrefix(lanes, gpus[..|gpus| - 1], i);
      assert gpus[..|gpus| - 1][..i] == gpus[..i];
    }
  }

  // Writing a minute, with its hour recomputed or not, is one more step of the run.
  lemma LaneStep<R>(tr: Track<R>, s: Slots<R>, ss: seq<Step<R>>, step: Step<R>, n: nat, k: nat, was: Cell<R>)
    requires |s| > 0 && n > 0
    ensures AllPuts(ss + [step]) == AllPuts(ss) + StepPuts(step)
    ensures PutAll(s, AllPuts(ss + [step])) == PutAll(PutAll(s, AllPuts(ss)), StepPuts(step))
    ensures LaneCell(tr, s, ss + [step], n, k, was) ==
      if step.rolled then Rolled(tr, PutAll(s, AllPuts(ss + [step])), step.read, step.ts, n, k, LaneCell(tr, s, ss, n, k, was))
      else LaneCell(tr, s, ss, n, k, was)
  {
    hide PutAll, ReadWindow, Select, HourOf, Mod;
    assert (ss + [step])[..|ss|] == ss;
    PutAllConcat(s, AllPuts(ss), StepPuts(step));
  }

  class Store {
    const nodeMinute: Ring<NodeRec>
    const nodeHour: Ring<NodeRec>
    const gpuMinute: Ring<GpuRec>
    const gpuHour: Ring<GpuRec>
    const lanes: map<nat, nat>

    ghost predicate Valid()
      reads nodeMinute.file, nodeHour.file, gpuMinute.file, gpuHour.file
    {
      && nodeMinute.Valid() && nodeHour.Valid() && gpuMinute.Valid() && gpuHour.Valid()
      && nodeMinute.lanes == 1 == nodeHour.lanes && gpuMinute.lanes == gpuHour.lanes
      && nodeMinute.period == 60 == gpuMinute.period && OneLaneEach(lanes, gpuMinute.lanes)
      && nodeMinute.file != nodeHour.file && gpuMinute.file != gpuHour.file
    }

    constructor (minuteSlots: nat, hourSlots: nat, cards: nat, lanes: map<nat, nat>)
      requires minuteSlots >= 1 && hourSlots >= 1 && OneLaneEach(lanes, cards)
      ensures Valid() && this.lanes == lanes && nodeMinute.file.Length == minuteSlots == gpuMinute.file.Length
      ensures NeverWritten(nodeMinute.file[..]) && GpusNeverWritten(gpuMinute.file[..], cards)
    {
      nodeMinute := new Ring(minuteSlots, 1, 60, NO_NODE);
      nodeHour := new Ring(hourSlots, 1, 3600, NO_NODE);
      gpuMinute := new Ring(minuteSlots, cards, 60, NO_GPU);
      gpuHour := new Ring(hourSlots, cards, 3600, NO_GPU);
      this.lanes := lanes;
    }

    // One minute: the node's record, the cards' records, and then the hour of both. A failure stops
    // it there: what was put is a part of the minute's records, and each lane's hour is recomputed
    // or as it was.
    method WriteMinute(ts: int, node: NodeRec, gpus: seq<GpuRec>)
      returns (ok: bool, ghost put: Step<NodeRec>, ghost cards: seq<(nat, GpuRec)>, ghost rolled: set<nat>, ghost read: bool)
      requires Valid() && ts >= 0
      modifies nodeMinute.file, nodeHour.file, gpuMinute.file, gpuHour.file
      ensures Valid()
      ensures put.ts == ts && put.recs <= [(0, node)] && cards <= Known(lanes, gpus)
      ensures ok ==> put.recs == [(0, node)] && put.rolled && cards == Known(lanes, gpus) && lanes.Keys <= rolled
      ensures nodeMinute.file[..] == PutAll(old(nodeMinute.file[..]), StepPuts(put))
      ensures gpuMinute.file[..] == PutAll(old(gpuMinute.file[..]), StepPuts(Step(ts, cards, false, false)))
      ensures forall k :: 0 <= k < nodeHour.file.Length ==>
        nodeHour.file[k][0] == if put.rolled then Rolled(NODE, nodeMinute.file[..], put.read, ts, nodeHour.file.Length, k, old(nodeHour.file[k][0]))
                               else old(nodeHour.file[k][0])
      ensures forall g, k :: g in lanes && 0 <= k < gpuHour.file.Length ==>
        gpuHour.file[k][lanes[g]] ==
          if g in rolled then Rolled(GPU(g, lanes[g]), gpuMinute.file[..], read, ts, gpuHour.file.Length, k, old(gpuHour.file[k][lanes[g]]))
          else old(gpuHour.file[k][lanes[g]])
    {
      hide Rolled, PutCell, Uniform, PutAll, StepPuts, Known;
      Sixtieth(ts);
      ghost var nodes, all := nodeMinute.file[..], gpuMinute.file[..];
      put, cards, rolled, read := Step(ts, [], false, false), [], {}, false;
      NoNodeYet(nodes, ts);
      NoPutYet(all, ts);
      ok := nodeMinute.Put(ts / 60, 0, Cell(ts, node));
      if !ok {
        return;
      }
      OnePut(nodes, ts, node);
      put := Step(ts, [(0, node)], false, false);
      ok, cards := PutGpus(ts, gpus);
      if !ok {
        return;
      }
      ok, read := RollUpNode(ts);
      if !ok {
        return;
      }
      SamePuts(put, read);
      put := put.(rolled := true, read := read);
      ok, rolled, read := RollUpGpus(ts);
    }

    method PutGpus(ts: int, gpus: seq<GpuRec>) returns (ok: bool, ghost cards: seq<(nat, GpuRec)>)
      requires Valid() && ts >= 0
      modifies gpuMinute.file
      ensures Valid()
      ensures cards <= Known(lanes, gpus) && (ok ==> cards == Known(lanes, gpus))
      ensures gpuMinute.file[..] == PutAll(old(gpuMinute.file[..]), StepPuts(Step(ts, cards, false, false)))
    {
      hide PutCell, Uniform;
      Sixtieth(ts);
      NoPutYet(gpuMinute.file[..], ts);
      cards := [];
      for i := 0 to |gpus|
        invariant Valid() && cards == Known(lanes, gpus[..i])
        invariant gpuMinute.file[..] == PutAll(old(gpuMinute.file[..]), StepPuts(Step(ts, cards, false, false)))
      {
        var g := gpus[i];
        assert gpus[..i + 1][..i] == gpus[..i];
        KnownPrefix(lanes, gpus, i);
        if g.gpu in lanes {
          MorePut(old(gpuMinute.file[..]), ts, cards, (lanes[g.gpu], g));
          ok := gpuMinute.Put(ts / 60, lanes[g.gpu], Cell(ts, g));
          if !ok {
            return;
          }
          cards := cards + [(lanes[g.gpu], g)];
        } else {
          assert Known(lanes, gpus[..i + 1]) == cards;
        }
      }
      assert gpus[..|gpus|] == gpus;
      ok := true;
    }

    // Recomputes the node's hour: it is what the minutes now give, none if they cannot be read, or
    // a failure leaves it.
    method RollUpNode(ts: int) returns (ok: bool, ghost read: bool)
      requires Valid() && ts >= 0
      modifies nodeHour.file
      ensures Valid()
      ensures forall k :: 0 <= k < nodeHour.file.Length ==>
        nodeHour.file[k][0] == if ok then Rolled(NODE, nodeMinute.file[..], read, ts, nodeHour.file.Length, k, old(nodeHour.file[k][0]))
                               else old(nodeHour.file[k][0])
    {
      hide ReadWindow, Mod, AggregateNode, PutCell;
      var start := ts - ts % 3600;
      HourStart(ts);
      var recs;
      recs, read := nodeMinute.Read(start, start + 3600);
      AllOwn(recs);
      var c := SumNode(recs, start);
      ghost var was := nodeHour.file[..];
      ok := nodeHour.Put(ts / 3600, 0, c);
      forall k | 0 <= k < nodeHour.file.Length
        ensures nodeHour.file[k][0] == if ok then Rolled(NODE, nodeMinute.file[..], read, ts, nodeHour.file.Length, k, was[k][0]) else was[k][0]
      {
        PutCellAt(was, 1, Placing(ts / 3600, 0, c), k, 0);
        assert nodeHour.file[..][k] == nodeHour.file[k];
      }
    }

    // Recomputes the hour of every card that has records in it, up to a failure.
    method RollUpGpus(ts: int) returns (ok: bool, ghost rolled: set<nat>, ghost read: bool)
      requires Valid() && ts >= 0
      modifies gpuHour.file
      ensures Valid() && (ok ==> lanes.Keys <= rolled)
      ensures forall g, k :: g in lanes && 0 <= k < gpuHour.file.Length ==>
        gpuHour.file[k][lanes[g]] ==
          if g in rolled then Rolled(GPU(g, lanes[g]), gpuMinute.file[..], read, ts, gpuHour.file.Length, k, old(gpuHour.file[k][lanes[g]]))
          else old(gpuHour.file[k][lanes[g]])
    {
      hide ReadWindow, Mod, AggregateGpu, PutCell, OwnGpu, Select, RolledSoFar, Rolled;
      var start := ts - ts % 3600;
      HourStart(ts);
      var recs;
      recs, read := gpuMinute.Read(start, start + 3600);
      var byGpu := GroupByGpu(recs);
      var left := byGpu.Keys;
      ghost var was, done := gpuHour.file[..], {};
      RollStart(was, lanes, gpuHour.lanes, byGpu, ts / 3600, start);
      ok := true;
      while left != {} && ok
        invariant left <= byGpu.Keys && done == byGpu.Keys - left && Valid()
        invariant RolledSoFar(gpuHour.file[..], was, lanes, gpuHour.lanes, byGpu, done, ts / 3600, start)
        decreases left, ok
      {
        var g :| g in left;
        if g in lanes {
          var c := SumGpu(byGpu[g], start);
          RollOne(gpuHour.file[..], was, lanes, gpuHour.lanes, byGpu, done, ts / 3600, start, g);
          ok := gpuHour.Put(ts / 3600, lanes[g], c);
          if ok {
            left, done := left - {g}, done + {g};
          }
        } else {
          RollNone(gpuHour.file[..], was, lanes, gpuHour.lanes, byGpu, done, ts / 3600, start, g);
          left, done := left - {g}, done + {g};
        }
      }
      rolled := if ok then lanes.Keys else done;
      forall g, k | g in lanes && 0 <= k < gpuHour.file.Length ensures gpuHour.file[k][lanes[g]] ==
        if g in rolled then Rolled(GPU(g, lanes[g]), gpuMinute.file[..], read, ts, gpuHour.file.Length, k, was[k][lanes[g]]) else was[k][lanes[g]]
      {
        RollEnd(gpuHour.file[..], was, lanes, gpuHour.lanes, byGpu, done, ts / 3600, start, g, k);
        RolledIs(g, lanes[g], gpuMinute.file[..], read, recs, byGpu, ts, gpuHour.file.Length, k, was[k][lanes[g]]);
        assert gpuHour.file[..][k] == gpuHour.file[k];
      }
    }
  }

  lemma RolledIs(g: nat, lane: nat, minute: Slots<GpuRec>, read: bool, recs: Slot<GpuRec>, byGpu: map<nat, Slot<GpuRec>>, ts: int, n: nat, k: nat, was: Cell<GpuRec>)
    requires n > 0 && ts >= 0 && ByCard(byGpu, recs)
    requires recs == if read then ReadWindow(minute, 60, 3600 * HourOf(ts), 3600 * HourOf(ts) + 3600) else []
    ensures Rolled(GPU(g, lane), minute, read, ts, n, k, was) ==
      if g in byGpu && Mod(HourOf(ts), n) == k then AggregateGpu(byGpu[g], 3600 * HourOf(ts)) else was
  {
    hide ReadWindow, Mod, AggregateGpu, OwnGpu, Select;
    NoneSelected(g);
  }

  lemma NoneSelected(g: nat)
    ensures Select(OwnGpu(g), []) == []
  {
  }

  // The hour of every card in done is recomputed, and nothing else has changed.
  ghost predicate RolledSoFar(file: Slots<GpuRec>, was: Slots<GpuRec>, lanes: map<nat, nat>, n: nat,
                              byGpu: map<nat, Slot<GpuRec>>, done: set<nat>, hb: int, start: int) {
    && |file| == |was| > 0 && Uniform(file, n) && Uniform(was, n) && OneLaneEach(lanes, n)
    && forall g, k :: g in lanes && 0 <= k < |file| ==> CardRolled(file, was, lanes[g], n, byGpu, g in done, hb, start, g, k)
  }

  ghost predicate CardRolled(file: Slots<GpuRec>, was: Slots<GpuRec>, lane: nat, n: nat,
                             byGpu: map<nat, Slot<GpuRec>>, done: bool, hb: int, start: int, g: nat, k: nat) {
    && k < |file| == |was| && lane < |file[k]| == |was[k]|
    && file[k][lane] == if done && g in byGpu && Mod(hb, |file|) == k then AggregateGpu(byGpu[g], start) else was[k][lane]
  }

  lemma RollStart(was: Slots<GpuRec>, lanes: map<nat, nat>, n: nat, byGpu: map<nat, Slot<GpuRec>>, hb: int, start: int)
    requires |was| > 0 && Uniform(was, n) && OneLaneEach(lanes, n)
    ensures RolledSoFar(was, was, lanes, n, byGpu, {}, hb, start)
  {
    hide Mod;
  }

  lemma RollNone(file: Slots<GpuRec>, was: Slots<GpuRec>, lanes: map<nat, nat>, n: nat,
                 byGpu: map<nat, Slot<GpuRec>>, done: set<nat>, hb: int, start: int, g: nat)
    requires RolledSoFar(file, was, lanes, n, byGpu, done, hb, start) && g !in lanes
    ensures RolledSoFar(file, was, lanes, n, byGpu, done + {g}, hb, start)
  {
    hide CardRolled;
    forall x, k | x in lanes && 0 <= k < |file| ensures CardRolled(file, was, lanes[x], n, byGpu, x in done + {g}, hb, start, x, k) {
      assert CardRolled(file, was, lanes[x], n, byGpu, x in done, hb, start, x, k);
      assert x in done + {g} <==> x in done;
    }
  }

  lemma RollOne(file: Slots<GpuRec>, was: Slots<GpuRec>, lanes: map<nat, nat>, n: nat,
                byGpu: map<nat, Slot<GpuRec>>, done: set<nat>, hb: int, start: int, g: nat)
    requires RolledSoFar(file, was, lanes, n, byGpu, done, hb, start) && g in lanes && g in byGpu
    ensures RolledSoFar(PutCell(file, Placing(hb, lanes[g], AggregateGpu(byGpu[g], start))), was, lanes, n, byGpu, done + {g}, hb, start)
  {
    hide Mod, AggregateGpu, PutCell;
    var p := Placing(hb, lanes[g], AggregateGpu(byGpu[g], start));
    PutUniform(file, n, p);
    forall x, k | x in lanes && 0 <= k < |file|
      ensures CardRolled(PutCell(file, p), was, lanes[x], n, byGpu, x in done + {g}, hb, start, x, k)
    {
      assert CardRolled(file, was, lanes[x], n, byGpu, x in done, hb, start, x, k);
      PutCellAt(file, n, p, k, lanes[x]);
    }
  }

  lemma PutUniform(file: Slots<GpuRec>, n: nat, p: Placing<GpuRec>)
    requires |file| > 0 && Uniform(file, n)
    ensures |PutCell(file, p)| == |file| && Uniform(PutCell(file, p), n)
  {
    hide Mod;
  }

  lemma RollEnd(file: Slots<GpuRec>, was: Slots<GpuRec>, lanes: map<nat, nat>, n: nat,
                byGpu: map<nat, Slot<GpuRec>>, done: set<nat>, hb: int, start: int, g: nat, k: nat)
    requires RolledSoFar(file, was, lanes, n, byGpu, done, hb, start) && g in lanes && k < |file|
    ensures lanes[g] < |file[k]| == |was[k]|
    ensures file[k][lanes[g]] == if g in done && g in byGpu && Mod(hb, |file|) == k then AggregateGpu(byGpu[g], start) else was[k][lanes[g]]
  {
    hide Mod, AggregateGpu;
    assert CardRolled(file, was, lanes[g], n, byGpu, g in done, hb, start, g, k);
  }

  lemma SelectPush(g: nat, c: Slot<GpuRec>, x: Cell<GpuRec>)
    ensures Select(OwnGpu(g), c + [x]) == Select(OwnGpu(g), c) + If(x.rec.gpu == g, x)
  {
    assert (c + [x])[..|c|] == c;
  }

  ghost predicate ByCard(byGpu: map<nat, Slot<GpuRec>>, recs: Slot<GpuRec>) {
    && (forall g :: g in byGpu <==> Select(OwnGpu(g), recs) != [])
    && (forall g :: g in byGpu ==> byGpu[g] == Select(OwnGpu(g), recs))
  }

  lemma ByCardPush(byGpu: map<nat, Slot<GpuRec>>, recs: Slot<GpuRec>, c: Cell<GpuRec>)
    requires ByCard(byGpu, recs)
    ensures var g := c.rec.gpu;
      ByCard(byGpu[g := (if g in byGpu then byGpu[g] else []) + [c]], recs + [c])
  {
    hide Select, OwnGpu;
    var g := c.rec.gpu;
    var more := byGpu[g := (if g in byGpu then byGpu[g] else []) + [c]];
    forall x
      ensures x in more <==> Select(OwnGpu(x), recs + [c]) != []
      ensures x in more ==> more[x] == Select(OwnGpu(x), recs + [c])
    {
      SelectPush(x, recs, c);
    }
  }

  method GroupByGpu(recs: Slot<GpuRec>) returns (byGpu: map<nat, Slot<GpuRec>>)
    ensures ByCard(byGpu, recs)
  {
    hide ByCard;
    byGpu := map[];
    NoCards();
    for i := 0 to |recs|
      invariant ByCard(byGpu, recs[..i])
    {
      var g := recs[i].rec.gpu;
      ByCardPush(byGpu, recs[..i], recs[i]);
      assert recs[..i + 1] == recs[..i] + [recs[i]];
      byGpu := byGpu[g := (if g in byGpu then byGpu[g] else []) + [recs[i]]];
    }
    assert recs[..|recs|] == recs;
  }

  lemma NoCards()
    ensures ByCard(map[], [])
  {
  }

  lemma Sixtieth(ts: int)
    requires ts >= 0
    ensures ts / 60 == TruncDiv(ts, 60)
  {
  }

  lemma OnePut(s: Slots<NodeRec>, ts: int, node: NodeRec)
    requires |s| > 0
    ensures PutAll(s, StepPuts(Step(ts, [(0, node)], false, false))) == PutCell(s, Placing(TruncDiv(ts, 60), 0, Cell(ts, node)))
  {
    hide PutCell;
    var ps := StepPuts(Step(ts, [(0, node)], false, false));
    assert ps == [Placing(TruncDiv(ts, 60), 0, Cell(ts, node))] && ps[..0] == [];
  }

  lemma NoPutYet(s: Slots<GpuRec>, ts: int)
    requires |s| > 0
    ensures PutAll(s, StepPuts(Step(ts, [], false, false))) == s
  {
  }

  lemma NoNodeYet(s: Slots<NodeRec>, ts: int)
    requires |s| > 0
    ensures PutAll(s, StepPuts(Step(ts, [], false, false))) == s
  {
  }

  lemma SamePuts(p: Step<NodeRec>, read: bool)
    ensures StepPuts(p.(rolled := true, read := read)) == StepPuts(p)
  {
  }

  lemma MorePut(s: Slots<GpuRec>, ts: int, recs: seq<(nat, GpuRec)>, r: (nat, GpuRec))
    requires |s| > 0
    ensures PutAll(s, StepPuts(Step(ts, recs + [r], false, false))) ==
      PutCell(PutAll(s, StepPuts(Step(ts, recs, false, false))), Placing(TruncDiv(ts, 60), r.0, Cell(ts, r.1)))
  {
    hide PutCell;
    var ps := StepPuts(Step(ts, recs + [r], false, false));
    assert ps[..|recs|] == StepPuts(Step(ts, recs, false, false));
  }

  lemma HourStart(ts: int)
    requires ts >= 0
    ensures ts - ts % 3600 == 3600 * HourOf(ts) && ts / 3600 == HourOf(ts)
  {
  }

  lemma {:induction false} AllOwn(recs: Slot<NodeRec>)
    ensures Select(AllNode, recs) == recs
  {
    if recs != [] {
      AllOwn(recs[..|recs| - 1]);
      assert AllNode(recs[|recs| - 1]);
      assert recs == recs[..|recs| - 1] + [recs[|recs| - 1]];
    }
  }
}

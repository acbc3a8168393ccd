/** Node and card records, how minutes become an hour, and that the hour's energy is the minutes'. */
module EnergyTiers {
  import opened Rings
  import opened Tiers
  import opened HourTier

  datatype NodeRec = NodeRec(watts: real, covered: nat)

  datatype GpuRec = GpuRec(gpu: nat, model: nat, attr: real, raw: real, covered: nat)

  const NO_NODE: Cell<NodeRec> := Cell(0, NodeRec(0.0, 0))
  const NO_GPU: Cell<GpuRec> := Cell(0, GpuRec(0, 0, 0.0, 0.0, 0))

  function ClampCovered(covered: nat): nat {
    if covered > 65535 then 65535 else covered
  }

  // A mean of watts weighted by seconds, and what it comes to over the seconds kept.
  function Mean(wattSeconds: real, covered: nat): real {
    if covered > 0 then wattSeconds / covered as real else 0.0
  }

  // The mean over the seconds kept gives the watt-seconds back exactly when the seconds fit, or
  // there were none to keep.
  lemma MeanKeeps(ws: real, covered: nat)
    requires covered == 0 ==> ws == 0.0
    ensures Mean(ws, covered) * ClampCovered(covered) as real == ws <==> covered <= 65535 || ws == 0.0
  {
    if covered > 0 {
      var c, m := covered as real, Mean(ws, covered);
      assert m * c == ws;
      if covered > 65535 {
        assert ws - m * 65535.0 == m * (c - 65535.0);
        if ws != 0.0 { NonZero(m, c - 65535.0); }
      }
    }
  }

  lemma NonZero(a: real, b: real)
    requires a != 0.0 && b != 0.0
    ensures a * b != 0.0
  {
  }

  // ---- The node ----

  function NodeWs(c: Cell<NodeRec>): real {
    c.rec.watts * c.rec.covered as real
  }

  function NodeCov(c: Cell<NodeRec>): real {
    c.rec.covered as real
  }

  function NodeCovered(recs: Slot<NodeRec>): nat {
    if recs == [] then 0 else NodeCovered(recs[..|recs| - 1]) + recs[|recs| - 1].rec.covered
  }

  function AggregateNode(recs: Slot<NodeRec>, start: int): Cell<NodeRec> {
    var covered := NodeCovered(recs);
    Cell(start, NodeRec(Mean(SumC(NodeWs, recs), covered), ClampCovered(covered)))
  }

  lemma {:induction false} NodeSums(recs: Slot<NodeRec>)
    ensures SumC(NodeCov, recs) == NodeCovered(recs) as real
    ensures NodeCovered(recs) == 0 ==> SumC(NodeWs, recs) == 0.0
  {
    if recs != [] { NodeSums(recs[..|recs| - 1]); }
  }

  function AllNode(c: Cell<NodeRec>): bool {
    true
  }

  // The node's lane of the hour ring: it has one record a minute, and is written every time.
  const NODE: Track<NodeRec> := Track(0, AllNode, AggregateNode, true)

  // At most a node record a minute, each of at most sixty seconds.
  predicate NodeRun(ss: seq<Step<NodeRec>>) {
    && Ordered(ss, 1)
    && forall i, j :: 0 <= i < |ss| && 0 <= j < |ss[i].recs| ==> ss[i].recs[j].0 == 0 && ss[i].recs[j].1.covered <= 60
  }

  predicate NeverWritten(s: Slots<NodeRec>) {
    forall k :: 0 <= k < |s| ==> s[k] == [NO_NODE]
  }

  // The seconds and watt-seconds of the last record of each minute of the hour h.
  function LastSeconds(ss: seq<Step<NodeRec>>, h: int): real {
    LastSum(OwnOnly(AllNode, NodeCov), AllPuts(ss), 60 * h, 60, 0)
  }

  function LastWattSeconds(ss: seq<Step<NodeRec>>, h: int): real {
    LastSum(OwnOnly(AllNode, NodeWs), AllPuts(ss), 60 * h, 60, 0)
  }

  lemma SecondsBound(ss: seq<Step<NodeRec>>, b: int, n: nat)
    requires NodeRun(ss)
    ensures LastSum(OwnOnly(AllNode, NodeCov), AllPuts(ss), b, n, 0) <= 60.0 * n as real
  {
    hide AllPuts;
    var ps := AllPuts(ss);
    forall i | 0 <= i < |ps| ensures OwnOnly(AllNode, NodeCov)(ps[i].cell) <= 60.0 {
      var m, j := PutFrom(ss, i);
      assert ps[i].cell.rec.covered <= 60;
      assert AllNode(ps[i].cell) && NodeCov(ps[i].cell) <= 60.0;
    }
    LastSumBound(OwnOnly(AllNode, NodeCov), ps, b, n, 0, 60.0);
  }

  lemma NodeTrackOk(s: Slots<NodeRec>, ss: seq<Step<NodeRec>>, f: Cell<NodeRec> -> real)
    requires NodeRun(ss) && NeverWritten(s) && f(NO_NODE) == 0.0
    ensures TrackOk(NODE, f, s, ss) && Uniform(s, 1)
  {
  }

  // What the record of the hour h says: the seconds and watt-seconds of the last record of each of
  // its minutes in ss, without saturating.
  predicate NodeExact(c: Cell<NodeRec>, ss: seq<Step<NodeRec>>, h: int) {
    && c.rec.covered as real == LastSeconds(ss, h)
    && c.rec.watts * c.rec.covered as real == LastWattSeconds(ss, h)
  }

  // After any time-ordered run, writes that failed anywhere included, each hour the ring holds is
  // exact for the writes up to the one that last recomputed it, or empty if that one could not read
  // the minutes; and exact for all of them from the next completed write of the hour on.
  lemma NodeHour(s: Slots<NodeRec>, ss: seq<Step<NodeRec>>, n: nat, k: nat, was: Cell<NodeRec>)
    requires |s| >= 60 && NeverWritten(s) && NodeRun(ss) && n > 0 && LastWrite(NODE, s, ss, n, k) > 0
    ensures var c, h := LaneCell(NODE, s, ss, n, k, was), HourOf(ss[LastWrite(NODE, s, ss, n, k) - 1].ts);
      && Mod(h, n) == k && c.ts == 3600 * h && c.rec.covered <= 3600
      && var j := LastWrite(NODE, s, ss, n, k);
      && (if ss[j - 1].read then NodeExact(c, ss[..j], h) else c.rec == NodeRec(0.0, 0))
      && (ss[j - 1].read && Caught(NODE, s, ss, n, k) ==> NodeExact(c, ss, h))
  {
    hide LaneCell, LastWrite, HourRecs, LastSum, HourOf, AllPuts, NodeCovered, SumC;
    NodeTrackOk(s, ss, One);
    NodeTrackOk(s, ss, NodeCov);
    NodeTrackOk(s, ss, NodeWs);
    HourRecord(NODE, NodeCov, s, 1, ss, n, k, was);
    HourRecord(NODE, NodeWs, s, 1, ss, n, k, was);
    var j := LastWrite(NODE, s, ss, n, k);
    var recs := HourRecs(NODE, s, ss[..j]);
    NodeSums(recs);
    NoneCovered();
    OrderedPrefix(ss, 1, j);
    SecondsBound(ss[..j], 60 * HourOf(ss[j - 1].ts), 60);
    MeanKeeps(SumC(NodeWs, recs), NodeCovered(recs));
  }

  lemma NoneCovered()
    ensures NodeCovered([]) == 0
  {
  }

  // ---- The cards ----

  function GpuCov(c: Cell<GpuRec>): real {
    c.rec.covered as real
  }

  function GpuAttr(c: Cell<GpuRec>): real {
    c.rec.attr * c.rec.covered as real
  }

  function GpuRaw(c: Cell<GpuRec>): real {
    c.rec.raw * c.rec.covered as real
  }

  function GpuCovered(recs: Slot<GpuRec>): nat {
    if recs == [] then 0 else GpuCovered(recs[..|recs| - 1]) + recs[|recs| - 1].rec.covered
  }

  // How long a model held the card.
  function ModelTime(recs: Slot<GpuRec>, m: nat): nat {
    if recs == [] then 0
    else ModelTime(recs[..|recs| - 1], m) + if recs[|recs| - 1].rec.model == m then recs[|recs| - 1].rec.covered else 0
  }

  predicate Beats(recs: Slot<GpuRec>, a: nat, b: nat) {
    ModelTime(recs, a) > ModelTime(recs, b) || (ModelTime(recs, a) == ModelTime(recs, b) && a < b)
  }

  // The model that held the card longest among the first n records; the smaller of equals.
  function BestModel(recs: Slot<GpuRec>, n: nat): nat
    requires n <= |recs|
  {
    if n == 0 then 0
    else if n == 1 || Beats(recs, recs[n - 1].rec.model, BestModel(recs, n - 1)) then recs[n - 1].rec.model
    else BestModel(recs, n - 1)
  }

  function AggregateGpu(recs: Slot<GpuRec>, start: int): Cell<GpuRec> {
    if recs == [] then Cell(start, GpuRec(0, 0, 0.0, 0.0, 0))
    else
      var covered := GpuCovered(recs);
      Cell(start, GpuRec(recs[0].rec.gpu, BestModel(recs, |recs|),
                         Mean(SumC(GpuAttr, recs), covered), Mean(SumC(GpuRaw, recs), covered), ClampCovered(covered)))
  }

  // The label goes to a model that had the card, and no other had it longer.
  lemma {:induction false} BestIsBest(recs: Slot<GpuRec>, n: nat, i: nat)
    requires i < n <= |recs|
    ensures var m := BestModel(recs, n);
      && (exists j :: 0 <= j < n && recs[j].rec.model == m)
      && (recs[i].rec.model == m || Beats(recs, m, recs[i].rec.model))
  {
    hide ModelTime;
    if n > 1 {
      BestIsBest(recs, n - 1, if i < n - 1 then i else 0);
    } else {
      assert recs[0].rec.model == BestModel(recs, n);
    }
    if BestModel(recs, n) == recs[n - 1].rec.model { assert recs[n - 1].rec.model == BestModel(recs, n); }
  }

  lemma {:induction false} GpuSums(recs: Slot<GpuRec>)
    ensures SumC(GpuCov, recs) == GpuCovered(recs) as real
    ensures GpuCovered(recs) == 0 ==> SumC(GpuAttr, recs) == 0.0 && SumC(GpuRaw, recs) == 0.0
  {
    if recs != [] { GpuSums(recs[..|recs| - 1]); }
  }

  function OwnGpu(g: nat): Cell<GpuRec> -> bool {
    (c: Cell<GpuRec>) => c.rec.gpu == g
  }

  function GPU(g: nat, lane: nat): Track<GpuRec> {
    Track(lane, OwnGpu(g), AggregateGpu, false)
  }

  // Each card in its own lane, at most sixty seconds a minute.
  predicate GpuRun(ss: seq<Step<GpuRec>>, lanes: map<nat, nat>, n: nat) {
    && Ordered(ss, n)
    && (forall i, j :: 0 <= i < |ss| && 0 <= j < |ss[i].recs| ==> GpuPut(ss[i].recs[j], lanes))
  }

  predicate GpuPut(p: (nat, GpuRec), lanes: map<nat, nat>) {
    p.1.gpu in lanes && lanes[p.1.gpu] == p.0 && p.1.covered <= 60
  }

  predicate OneLaneEach(lanes: map<nat, nat>, n: nat) {
    (forall g :: g in lanes ==> lanes[g] < n) && forall g, g' :: g in lanes && g' in lanes && lanes[g] == lanes[g'] ==> g == g'
  }

  predicate GpusNeverWritten(s: Slots<GpuRec>, n: nat) {
    forall k :: 0 <= k < |s| ==> |s[k]| == n && forall l :: 0 <= l < n ==> s[k][l] == NO_GPU
  }

  lemma GpuTrackOk(s: Slots<GpuRec>, ss: seq<Step<GpuRec>>, lanes: map<nat, nat>, n: nat, g: nat, f: Cell<GpuRec> -> real)
    requires GpuRun(ss, lanes, n) && OneLaneEach(lanes, n) && GpusNeverWritten(s, n) && g in lanes && f(NO_GPU) == 0.0
    ensures TrackOk(GPU(g, lanes[g]), f, s, ss) && Uniform(s, n) && Ordered(ss, n) && lanes[g] < n
  {
    forall i, j | 0 <= i < |ss| && 0 <= j < |ss[i].recs|
      ensures OwnGpu(g)(Cell(ss[i].ts, ss[i].recs[j].1)) <==> ss[i].recs[j].0 == lanes[g]
    {
      assert GpuPut(ss[i].recs[j], lanes);
    }
  }

  // What the card's last records of the hour's minutes come to.
  function GpuLast(f: Cell<GpuRec> -> real, ss: seq<Step<GpuRec>>, g: nat, lane: nat, h: int): real {
    LastSum(OwnOnly(OwnGpu(g), f), AllPuts(ss), 60 * h, 60, lane)
  }

  lemma CardSeconds(g: nat, c: Cell<GpuRec>)
    requires c.rec.covered <= 60
    ensures OwnOnly(OwnGpu(g), GpuCov)(c) <= 60.0
  {
    assert GpuCov(c) == c.rec.covered as real <= 60.0;
    assert OwnOnly(OwnGpu(g), GpuCov)(c) == if OwnGpu(g)(c) then GpuCov(c) else 0.0;
  }

  lemma GpuSecondsBound(ss: seq<Step<GpuRec>>, lanes: map<nat, nat>, n: nat, g: nat, lane: nat, h: int)
    requires GpuRun(ss, lanes, n)
    ensures GpuLast(GpuCov, ss, g, lane, h) <= 3600.0
  {
    hide AllPuts, TruncDiv, LastSum, Ordered;
    var ps := AllPuts(ss);
    forall i | 0 <= i < |ps| ensures OwnOnly(OwnGpu(g), GpuCov)(ps[i].cell) <= 60.0 {
      var x, j := PutFrom(ss, i);
      assert GpuPut(ss[x].recs[j], lanes);
      CardSeconds(g, ps[i].cell);
    }
    LastSumBound(OwnOnly(OwnGpu(g), GpuCov), ps, 60 * h, 60, lane, 60.0);
  }

  predicate GpuExact(c: Cell<GpuRec>, ss: seq<Step<GpuRec>>, g: nat, lane: nat, h: int) {
    && c.rec.covered as real == GpuLast(GpuCov, ss, g, lane, h)
    && c.rec.attr * c.rec.covered as real == GpuLast(GpuAttr, ss, g, lane, h)
    && c.rec.raw * c.rec.covered as real == GpuLast(GpuRaw, ss, g, lane, h)
  }

  // One measure of a card's hour, when it was last written and, if no write has failed since, now.
  lemma GpuMeasure(f: Cell<GpuRec> -> real, s: Slots<GpuRec>, ss: seq<Step<GpuRec>>, lanes: map<nat, nat>, m: nat, g: nat, n: nat, k: nat, was: Cell<GpuRec>)
    requires |s| >= 60 && GpuRun(ss, lanes, m) && OneLaneEach(lanes, m) && GpusNeverWritten(s, m) && g in lanes && n > 0
    requires LastWrite(GPU(g, lanes[g]), s, ss, n, k) > 0 && f(NO_GPU) == 0.0
    ensures var tr, j := GPU(g, lanes[g]), LastWrite(GPU(g, lanes[g]), s, ss, n, k);
      var h, recs := HourOf(ss[j - 1].ts), HourRecs(tr, s, ss[..j]);
      && Mod(h, n) == k && recs != [] && LaneCell(tr, s, ss, n, k, was) == AggregateGpu(recs, 3600 * h)
      && SumC(f, recs) == GpuLast(f, ss[..j], g, lanes[g], h)
      && (Caught(tr, s, ss, n, k) ==> SumC(f, recs) == GpuLast(f, ss, g, lanes[g], h))
  {
    hide LaneCell, LastWrite, HourRecs, LastSum, HourOf, AllPuts, SumC, AggregateGpu, OwnGpu, Mod;
    hide Owned, Unowned, TrackOk, Uniform, Ordered, Caught, GpusNeverWritten, OneLaneEach;
    var tr := GPU(g, lanes[g]);
    GpuTrackOk(s, ss, lanes, m, g, One);
    GpuTrackOk(s, ss, lanes, m, g, f);
    BlankCards(s, m, g, lanes[g]);
    HourRecord(tr, f, s, m, ss, n, k, was);
    NonEmptyWrite(tr, s, ss, n, k, was);
    ReadToWrite(tr, s, ss[..LastWrite(tr, s, ss, n, k)]);
  }

  // So it is for every card in its lane, for the watts it was charged and the watts it drew.
  lemma GpuHour(s: Slots<GpuRec>, ss: seq<Step<GpuRec>>, lanes: map<nat, nat>, m: nat, g: nat, n: nat, k: nat, was: Cell<GpuRec>)
    requires |s| >= 60 && GpuRun(ss, lanes, m) && OneLaneEach(lanes, m) && GpusNeverWritten(s, m) && g in lanes && n > 0
    requires LastWrite(GPU(g, lanes[g]), s, ss, n, k) > 0
    ensures var c := LaneCell(GPU(g, lanes[g]), s, ss, n, k, was);
      var j := LastWrite(GPU(g, lanes[g]), s, ss, n, k);
      var h := HourOf(ss[j - 1].ts);
      && Mod(h, n) == k && c.ts == 3600 * h && c.rec.covered <= 3600
      && GpuExact(c, ss[..j], g, lanes[g], h)
      && (Caught(GPU(g, lanes[g]), s, ss, n, k) ==> GpuExact(c, ss, g, lanes[g], h))
  {
    hide LaneCell, LastWrite, HourRecs, HourOf, GpuCovered, SumC, BestModel, GpuLast, Mod;
    hide Ordered, Caught, GpusNeverWritten, OneLaneEach, GPU, Mean;
    GpuMeasure(GpuCov, s, ss, lanes, m, g, n, k, was);
    GpuMeasure(GpuAttr, s, ss, lanes, m, g, n, k, was);
    GpuMeasure(GpuRaw, s, ss, lanes, m, g, n, k, was);
    var j := LastWrite(GPU(g, lanes[g]), s, ss, n, k);
    var recs := HourRecs(GPU(g, lanes[g]), s, ss[..j]);
    GpuSums(recs);
    RunPrefix(ss, lanes, m, j);
    GpuSecondsBound(ss[..j], lanes, m, g, lanes[g], HourOf(ss[j - 1].ts));
    MeanKeeps(SumC(GpuAttr, recs), GpuCovered(recs));
    MeanKeeps(SumC(GpuRaw, recs), GpuCovered(recs));
  }

  // ---- The card and the label of an hour ----

  // The seconds a record says its model held the card.
  function ModelCov(m: nat): Cell<GpuRec> -> real {
    (c: Cell<GpuRec>) => if c.rec.model == m then c.rec.covered as real else 0.0
  }

  lemma {:induction false} ModelSum(recs: Slot<GpuRec>, m: nat)
    ensures SumC(ModelCov(m), recs) == ModelTime(recs, m) as real
  {
    if recs != [] { ModelSum(recs[..|recs| - 1], m); }
  }

  lemma {:induction false} ModelAbsent(recs: Slot<GpuRec>, m: nat)
    requires forall i :: 0 <= i < |recs| ==> recs[i].rec.model != m
    ensures ModelTime(recs, m) == 0
  {
    if recs != [] { ModelAbsent(recs[..|recs| - 1], m); }
  }

  lemma BestHeld(recs: Slot<GpuRec>, x: nat)
    requires recs != []
    ensures var best := BestModel(recs, |recs|);
      ModelTime(recs, best) >= ModelTime(recs, x) && (ModelTime(recs, best) == ModelTime(recs, x) > 0 ==> best <= x)
  {
    hide ModelTime, BestModel;
    if i :| 0 <= i < |recs| && recs[i].rec.model == x {
      BestIsBest(recs, |recs|, i);
    } else {
      ModelAbsent(recs, x);
    }
  }

  // The record of a card's hour is that card's, and its model is one that held the card as long as any
  // other in the last records of the hour's minutes, the smallest of those.
  lemma GpuLabel(s: Slots<GpuRec>, ss: seq<Step<GpuRec>>, lanes: map<nat, nat>, m: nat, g: nat, n: nat, k: nat, was: Cell<GpuRec>, x: nat)
    requires |s| >= 60 && GpuRun(ss, lanes, m) && OneLaneEach(lanes, m) && GpusNeverWritten(s, m) && g in lanes && n > 0
    requires LastWrite(GPU(g, lanes[g]), s, ss, n, k) > 0
    ensures var c, j := LaneCell(GPU(g, lanes[g]), s, ss, n, k, was), LastWrite(GPU(g, lanes[g]), s, ss, n, k);
      var h := HourOf(ss[j - 1].ts);
      && c.rec.gpu == g
      && Longest(c.rec.model, x, ss[..j], g, lanes[g], h)
      && (Caught(GPU(g, lanes[g]), s, ss, n, k) ==> Longest(c.rec.model, x, ss, g, lanes[g], h))
  {
    hide LaneCell, LastWrite, HourRecs, HourOf, GpuCovered, SumC, BestModel, GpuLast, Mod, ModelTime;
    hide Ordered, Caught, GpusNeverWritten, OneLaneEach, Mean, GpuRun, ModelCov;
    var tr, j := GPU(g, lanes[g]), LastWrite(GPU(g, lanes[g]), s, ss, n, k);
    var recs, c := HourRecs(tr, s, ss[..j]), LaneCell(tr, s, ss, n, k, was);
    ModelNone(x);
    GpuMeasure(ModelCov(x), s, ss, lanes, m, g, n, k, was);
    ModelNone(c.rec.model);
    GpuMeasure(ModelCov(c.rec.model), s, ss, lanes, m, g, n, k, was);
    ModelSum(recs, x);
    ModelSum(recs, c.rec.model);
    BestHeld(recs, x);
    HourRecsTimes(tr, s, ss[..j], 0);
  }

  lemma ModelNone(m: nat)
    ensures ModelCov(m)(NO_GPU) == 0.0
  {
  }

  predicate Longest(best: nat, x: nat, ss: seq<Step<GpuRec>>, g: nat, lane: nat, h: int) {
    var a, b := GpuLast(ModelCov(best), ss, g, lane, h), GpuLast(ModelCov(x), ss, g, lane, h);
    a >= b && (a == b > 0.0 ==> best <= x)
  }

  lemma RunPrefix(ss: seq<Step<GpuRec>>, lanes: map<nat, nat>, n: nat, j: nat)
    requires GpuRun(ss, lanes, n) && j <= |ss|
    ensures GpuRun(ss[..j], lanes, n)
  {
    hide Ordered, GpuPut;
    OrderedPrefix(ss, n, j);
  }

  // A record never written reads as one of card 0.
  lemma BlankCards(s: Slots<GpuRec>, m: nat, g: nat, lane: nat)
    requires GpusNeverWritten(s, m)
    ensures if g == 0 then Owned(GPU(g, lane), s) else Unowned(GPU(g, lane), s)
  {
  }

  lemma NonEmptyWrite(tr: Track<GpuRec>, s: Slots<GpuRec>, ss: seq<Step<GpuRec>>, n: nat, k: nat, was: Cell<GpuRec>)
    requires |s| > 0 && n > 0 && LastWrite(tr, s, ss, n, k) > 0 && !tr.always
    ensures HourRecs(tr, s, ss[..LastWrite(tr, s, ss, n, k)]) != []
  {
    hide HourRecs, LastWrite, LaneCell;
    LaneCellIs(tr, s, ss, n, k, was);
  }
}

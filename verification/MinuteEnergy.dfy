/** One recorded minute: node power is the baseline, the cards with no model, and the clients' shares. */
module MinuteEnergy {
  import opened Options
  import opened EnergyTiers
  import opened Attribution
  import opened ClientSplit

  // A card's mean draw in the minute, and the index of the model it mostly held, if that can be had.
  datatype Sampled = Sampled(gpu: nat, watts: real, model: Option<nat>)

  function Readings(rs: seq<Sampled>): seq<Reading> {
    seq(|rs|, i requires 0 <= i < |rs| => Reading(rs[i].gpu, rs[i].watts))
  }

  function WattsOf(watts: map<nat, real>, g: nat): real {
    if g in watts then watts[g] else 0.0
  }

  function Record(r: Sampled, w: real, covered: nat): seq<GpuRec> {
    if r.model.None? then [] else [GpuRec(r.gpu, r.model.value, w, r.watts, covered)]
  }

  // The records of a minute: a card whose model has no index is skipped.
  function Records(rs: seq<Sampled>, watts: map<nat, real>, covered: nat): seq<GpuRec> {
    if rs == [] then []
    else Records(rs[..|rs| - 1], watts, covered) + Record(rs[|rs| - 1], WattsOf(watts, rs[|rs| - 1].gpu), covered)
  }

  // What was attributed to the cards skipped.
  function SkippedWh(rs: seq<Sampled>, watts: map<nat, real>, covered: nat): real {
    if rs == [] then 0.0
    else
      var r := rs[|rs| - 1];
      SkippedWh(rs[..|rs| - 1], watts, covered) + if r.model.None? then Wh(WattsOf(watts, r.gpu), covered) else 0.0
  }

  predicate CardsApart(rs: seq<Sampled>) {
    forall i, j :: 0 <= i < j < |rs| ==> rs[i].gpu != rs[j].gpu
  }

  // ---- Totals by model and over all ----

  type Tagged = seq<(nat, real)>

  function All(ts: Tagged): real {
    if ts == [] then 0.0 else All(ts[..|ts| - 1]) + ts[|ts| - 1].1
  }

  function OfModel(ts: Tagged, m: nat): real {
    if ts == [] then 0.0 else OfModel(ts[..|ts| - 1], m) + if ts[|ts| - 1].0 == m then ts[|ts| - 1].1 else 0.0
  }

  function Without(ts: Tagged, m: nat): (r: Tagged)
    ensures |r| <= |ts|
  {
    if ts == [] then []
    else Without(ts[..|ts| - 1], m) + if ts[|ts| - 1].0 == m then [] else [ts[|ts| - 1]]
  }

  lemma {:induction false} WithoutSums(ts: Tagged, m: nat, n: nat)
    ensures All(ts) == OfModel(ts, m) + All(Without(ts, m))
    ensures OfModel(Without(ts, m), n) == if n == m then 0.0 else OfModel(ts, n)
  {
    if ts != [] {
      var init, t := ts[..|ts| - 1], ts[|ts| - 1];
      WithoutSums(init, m, n);
      var w := Without(init, m);
      if t.0 != m { assert (w + [t])[..|w|] == w; } else { assert w + [] == w; }
    }
  }

  lemma {:induction false} SameAll(a: Tagged, b: Tagged)
    requires forall m :: OfModel(a, m) == OfModel(b, m)
    ensures All(a) == All(b)
    decreases |a| + |b|
  {
    if a != [] || b != [] {
      var m := if a != [] then a[|a| - 1].0 else b[|b| - 1].0;
      WithoutSums(a, m, m);
      WithoutSums(b, m, m);
      forall n ensures OfModel(Without(a, m), n) == OfModel(Without(b, m), n) {
        WithoutSums(a, m, n);
        WithoutSums(b, m, n);
      }
      Fewer(a, m);
      Fewer(b, m);
      SameAll(Without(a, m), Without(b, m));
    }
  }

  lemma Fewer(ts: Tagged, m: nat)
    ensures ts != [] && ts[|ts| - 1].0 == m ==> |Without(ts, m)| < |ts|
  {
  }

  function ShareTags(ss: seq<Share>): Tagged {
    if ss == [] then [] else ShareTags(ss[..|ss| - 1]) + [(ss[|ss| - 1].model, ss[|ss| - 1].wh)]
  }

  // The cards that have a model.
  function CardTags(gpus: seq<GpuRec>): Tagged {
    if gpus == [] then []
    else
      var g := gpus[|gpus| - 1];
      CardTags(gpus[..|gpus| - 1]) + if g.model != 0 then [(g.model, CardWh(g))] else []
  }

  lemma TagPush(ts: Tagged, t: (nat, real), m: nat)
    ensures OfModel(ts + [t], m) == OfModel(ts, m) + (if t.0 == m then t.1 else 0.0) && All(ts + [t]) == All(ts) + t.1
  {
    assert (ts + [t])[..|ts|] == ts;
  }

  lemma {:induction false} ShareTagSums(ss: seq<Share>, m: nat)
    ensures OfModel(ShareTags(ss), m) == SumWh(ss, m)
  {
    if ss != [] {
      ShareTagSums(ss[..|ss| - 1], m);
      TagPush(ShareTags(ss[..|ss| - 1]), (ss[|ss| - 1].model, ss[|ss| - 1].wh), m);
    }
  }

  lemma {:induction false} CardTagSums(gpus: seq<GpuRec>, m: nat)
    ensures OfModel(CardTags(gpus), m) == ModelWh(gpus, m)
  {
    hide CardWh;
    if gpus != [] {
      var init, g := gpus[..|gpus| - 1], gpus[|gpus| - 1];
      CardTagSums(init, m);
      if g.model != 0 {
        TagPush(CardTags(init), (g.model, CardWh(g)), m);
      } else {
        assert CardTags(init) + [] == CardTags(init);
      }
    }
  }

  function SharesWh(ss: seq<Share>): real {
    All(ShareTags(ss))
  }

  // The energy of the cards without a model.
  function IdleWh(gpus: seq<GpuRec>): real {
    if gpus == [] then 0.0
    else IdleWh(gpus[..|gpus| - 1]) + if gpus[|gpus| - 1].model == 0 then CardWh(gpus[|gpus| - 1]) else 0.0
  }

  function CardsWh(gpus: seq<GpuRec>): real {
    if gpus == [] then 0.0 else CardsWh(gpus[..|gpus| - 1]) + CardWh(gpus[|gpus| - 1])
  }

  lemma {:induction false} CardsSplit(gpus: seq<GpuRec>)
    ensures CardsWh(gpus) == IdleWh(gpus) + All(CardTags(gpus))
  {
    hide CardWh;
    if gpus != [] {
      var init, g := gpus[..|gpus| - 1], gpus[|gpus| - 1];
      CardsSplit(init);
      if g.model != 0 {
        TagPush(CardTags(init), (g.model, CardWh(g)), 0);
      } else {
        assert CardTags(init) + [] == CardTags(init);
      }
    }
  }

  // Watts over the seconds covered, in watt-hours.
  function Wh(w: real, covered: nat): real {
    w * covered as real / 3600.0
  }

  lemma WhAdds(x: real, y: real, covered: nat)
    ensures Wh(x + y, covered) == Wh(x, covered) + Wh(y, covered) && Wh(0.0, covered) == 0.0
  {
    var c := covered as real;
    assert (x + y) * c == x * c + y * c;
  }

  // The watts of the cards in rs.
  function Given(watts: map<nat, real>, rs: seq<Sampled>): map<nat, real> {
    if rs == [] then map[]
    else
      var r := rs[|rs| - 1];
      Given(watts, rs[..|rs| - 1])[r.gpu := WattsOf(watts, r.gpu)]
  }

  lemma {:induction false} GivenAt(watts: map<nat, real>, rs: seq<Sampled>, g: nat)
    ensures g in Given(watts, rs) <==> exists i :: 0 <= i < |rs| && rs[i].gpu == g
    ensures g in Given(watts, rs) && g in watts ==> Given(watts, rs)[g] == watts[g]
  {
    if rs != [] {
      var init := rs[..|rs| - 1];
      GivenAt(watts, init, g);
      if g in Given(watts, init) {
        var i :| 0 <= i < |init| && init[i].gpu == g;
        assert rs[i].gpu == g;
      }
      if rs[|rs| - 1].gpu == g { assert rs[|rs| - 1].gpu == g; }
    }
  }

  lemma {:induction false} CardsTotal(rs: seq<Sampled>, watts: map<nat, real>, covered: nat)
    requires CardsApart(rs)
    ensures CardsWh(Records(rs, watts, covered)) + SkippedWh(rs, watts, covered) == Wh(Total(Given(watts, rs)), covered)
  {
    hide Wh, Total, CardWh, CardsWh;
    if rs == [] {
      TotalZero(map[]);
      WhAdds(0.0, 0.0, covered);
      assert CardsWh([]) == 0.0 by { NoCards(); }
    } else {
      var init, r := rs[..|rs| - 1], rs[|rs| - 1];
      CardsTotal(init, watts, covered);
      GivenAt(watts, init, r.gpu);
      var w := WattsOf(watts, r.gpu);
      TotalPut(Given(watts, init), r.gpu, w);
      WhAdds(Total(Given(watts, init)), w, covered);
      var gpus := Records(init, watts, covered);
      if r.model.Some? {
        CardIs(w, r, covered);
        CardsPush(gpus, GpuRec(r.gpu, r.model.value, w, r.watts, covered));
      } else {
        assert gpus + [] == gpus;
      }
    }
  }

  lemma CardsPush(gpus: seq<GpuRec>, g: GpuRec)
    ensures CardsWh(gpus + [g]) == CardsWh(gpus) + CardWh(g)
  {
    hide CardWh;
    assert (gpus + [g])[..|gpus|] == gpus;
  }

  lemma NoCards()
    ensures CardsWh([]) == 0.0
  {
  }

  lemma CardIs(w: real, r: Sampled, covered: nat)
    requires r.model.Some?
    ensures CardWh(GpuRec(r.gpu, r.model.value, w, r.watts, covered)) == Wh(w, covered)
  {
  }

  // No card that was skipped was given any power.
  predicate NoneSkipped(rs: seq<Sampled>, watts: map<nat, real>) {
    forall i :: 0 <= i < |rs| && rs[i].model.None? ==> WattsOf(watts, rs[i].gpu) == 0.0
  }

  lemma WhSign(w: real, covered: nat)
    requires w >= 0.0
    ensures Wh(w, covered) >= 0.0 && (Wh(w, covered) == 0.0 <==> w == 0.0 || covered == 0)
  {
  }

  lemma {:induction false} SkippedNothing(rs: seq<Sampled>, watts: map<nat, real>, covered: nat)
    requires NonNegative(watts)
    ensures SkippedWh(rs, watts, covered) >= 0.0
    ensures SkippedWh(rs, watts, covered) == 0.0 <==> NoneSkipped(rs, watts) || covered == 0
  {
    hide Wh;
    if rs != [] {
      var init, r := rs[..|rs| - 1], rs[|rs| - 1];
      SkippedNothing(init, watts, covered);
      WhSign(WattsOf(watts, r.gpu), covered);
      assert rs == init + [r];
      assert NoneSkipped(rs, watts) <==> NoneSkipped(init, watts) && (r.model.None? ==> WattsOf(watts, r.gpu) == 0.0) by {
        if NoneSkipped(rs, watts) {
          assert rs[|rs| - 1] == r;
          forall i | 0 <= i < |init| && init[i].model.None? ensures WattsOf(watts, init[i].gpu) == 0.0 {
            assert rs[i] == init[i];
          }
        }
      }
    }
  }

  // The energy of a minute: for any node power that is not negative, what the node drew is the
  // baseline, the cards without a model, the shares of the clients and of nobody, and what was
  // attributed to the cards skipped. So it adds up without the last exactly if those were given no
  // power, or no second was covered.
  lemma MinuteAddsUp(nodeW: real, rs: seq<Sampled>, idle: map<nat, real>, nodeBaseline: real, covered: nat, shares: seq<Share>)
    requires CardsApart(rs) && nodeW >= 0.0
    requires var watts := Shares(Marginals(Readings(rs), idle), AllMarginal(Readings(rs), idle),
                                 Work(nodeW, Floor(nodeW, AllMarginal(Readings(rs), idle), nodeBaseline)));
      forall m :: SumWh(shares, m) == ModelWh(Records(rs, watts, covered), m)
    ensures var watts := Shares(Marginals(Readings(rs), idle), AllMarginal(Readings(rs), idle),
                                Work(nodeW, Floor(nodeW, AllMarginal(Readings(rs), idle), nodeBaseline)));
      var accounted := Wh(Work(nodeW, Total(watts)), covered) + IdleWh(Records(rs, watts, covered)) + SharesWh(shares);
      && Wh(nodeW, covered) == accounted + SkippedWh(rs, watts, covered)
      && (Wh(nodeW, covered) == accounted <==> NoneSkipped(rs, watts) || covered == 0)
  {
    hide Wh, Total, Marginals, AllMarginal, Shares, Records, IdleWh, CardsWh, NoneSkipped, NonNegative;
    var m, all := Marginals(Readings(rs), idle), AllMarginal(Readings(rs), idle);
    var work := Work(nodeW, Floor(nodeW, all, nodeBaseline));
    var watts := Shares(m, all, work);
    var gpus := Records(rs, watts, covered);
    Reconciles(nodeW, Readings(rs), idle, nodeBaseline);
    WhAdds(Work(nodeW, Total(watts)), Total(watts), covered);
    CardsAll(rs, idle, all, work);
    CardsTotal(rs, watts, covered);
    CardsSplit(gpus);
    forall n ensures OfModel(ShareTags(shares), n) == OfModel(CardTags(gpus), n) {
      ShareTagSums(shares, n);
      CardTagSums(gpus, n);
    }
    SameAll(ShareTags(shares), CardTags(gpus));
    SkippedNothing(rs, watts, covered);
  }

  // The shares are for exactly the cards read.
  lemma CardsAll(rs: seq<Sampled>, idle: map<nat, real>, all: real, work: real)
    ensures var watts := Shares(Marginals(Readings(rs), idle), all, work);
      Given(watts, rs) == watts
  {
    hide Marginals, Part, Given;
    var watts := Shares(Marginals(Readings(rs), idle), all, work);
    forall g ensures g in Given(watts, rs) <==> g in watts
      ensures g in watts ==> Given(watts, rs)[g] == watts[g]
    {
      GivenAt(watts, rs, g);
      MarginalsKeys(Readings(rs), idle, g);
      if g in watts {
        var i :| 0 <= i < |Readings(rs)| && Readings(rs)[i].gpu == g;
        assert rs[i].gpu == g;
      }
      if i :| 0 <= i < |rs| && rs[i].gpu == g { assert Readings(rs)[i].gpu == g; }
    }
  }

  // The record of a card's minute: its number and model, the watts it was charged, the watts it drew,
  // and the seconds covered.
  predicate RecordOf(g: GpuRec, r: Sampled, watts: map<nat, real>, covered: nat) {
    && g.gpu == r.gpu && r.model == Some(g.model) && g.raw == r.watts && g.covered == covered
    && (r.gpu in watts ==> g.attr == watts[r.gpu])
  }

  predicate SomeCard(g: GpuRec, rs: seq<Sampled>, watts: map<nat, real>, covered: nat) {
    exists i :: 0 <= i < |rs| && RecordOf(g, rs[i], watts, covered)
  }

  predicate SomeRecord(gpus: seq<GpuRec>, r: Sampled, watts: map<nat, real>, covered: nat) {
    exists k :: 0 <= k < |gpus| && RecordOf(gpus[k], r, watts, covered)
  }

  // Every record is of a card, and every card whose model has an index has its record.
  predicate AllRecorded(gpus: seq<GpuRec>, rs: seq<Sampled>, watts: map<nat, real>, covered: nat) {
    && (forall k :: 0 <= k < |gpus| ==> SomeCard(gpus[k], rs, watts, covered))
    && (forall i :: 0 <= i < |rs| && rs[i].model.Some? ==> SomeRecord(gpus, rs[i], watts, covered))
  }

  lemma {:induction false} RecordFrom(rs: seq<Sampled>, watts: map<nat, real>, covered: nat, k: nat) returns (i: nat)
    requires k < |Records(rs, watts, covered)|
    ensures i < |rs| && RecordOf(Records(rs, watts, covered)[k], rs[i], watts, covered)
  {
    var n := |rs| - 1;
    if k < |Records(rs[..n], watts, covered)| {
      i := RecordFrom(rs[..n], watts, covered, k);
    } else {
      i := n;
    }
  }

  lemma {:induction false} RecordAt(rs: seq<Sampled>, watts: map<nat, real>, covered: nat, i: nat) returns (k: nat)
    requires i < |rs| && rs[i].model.Some?
    ensures k < |Records(rs, watts, covered)| && RecordOf(Records(rs, watts, covered)[k], rs[i], watts, covered)
  {
    var n := |rs| - 1;
    if i < n {
      k := RecordAt(rs[..n], watts, covered, i);
    } else {
      k := |Records(rs[..n], watts, covered)|;
    }
  }

  lemma RecordsAre(rs: seq<Sampled>, watts: map<nat, real>, covered: nat)
    ensures AllRecorded(Records(rs, watts, covered), rs, watts, covered)
  {
    hide Records;
    var gpus := Records(rs, watts, covered);
    forall k | 0 <= k < |gpus| ensures SomeCard(gpus[k], rs, watts, covered) {
      var i := RecordFrom(rs, watts, covered, k);
    }
    forall i | 0 <= i < |rs| && rs[i].model.Some? ensures SomeRecord(gpus, rs[i], watts, covered) {
      var k := RecordAt(rs, watts, covered, i);
    }
  }

  // A minute as it is finalised: the split of the node's power, a record for each card whose model
  // has an index, and, once those are written, the shares of the clients. There are none where use
  // is not kept, or nobody was ever named, or a model that was used has no index.
  method Finalise(nodeW: real, rs: seq<Sampled>, idle: map<nat, real>, nodeBaseline: real, covered: nat,
                  uses: Option<seq<ClientUse>>, named: bool, index: string -> Option<nat>)
    returns (baselineW: real, watts: map<nat, real>, gpus: seq<GpuRec>, wrote: bool, shares: Option<seq<Share>>)
    requires CardsApart(rs)
    ensures gpus == Records(rs, watts, covered)
    ensures AllRecorded(gpus, rs, watts, covered)
    ensures var readings := Readings(rs);
      var all := AllMarginal(readings, idle);
      watts == Shares(Marginals(readings, idle), all, Work(nodeW, Floor(nodeW, all, nodeBaseline))) && baselineW == Work(nodeW, Total(watts))
    ensures shares.Some? <==>
      && wrote && uses.Some? && (uses.value != [] || named)
      && forall i :: 0 <= i < |uses.value| && uses.value[i].client != "" && uses.value[i].model != "" ==> index(uses.value[i].model).Some?
    ensures shares.Some? && nodeW >= 0.0 ==>
      var accounted := Wh(baselineW, covered) + IdleWh(gpus) + SharesWh(shares.value);
      && Wh(nodeW, covered) == accounted + SkippedWh(rs, watts, covered)
      && (Wh(nodeW, covered) == accounted <==> NoneSkipped(rs, watts) || covered == 0)
  {
    hide Wh, IdleWh, SharesWh, SkippedWh, NoneSkipped, Marginals, AllMarginal, Shares, Total, AllRecorded;
    baselineW, watts := Attribute(nodeW, Readings(rs), idle, nodeBaseline);
    gpus := [];
    for k := 0 to |rs|
      invariant gpus == Records(rs[..k], watts, covered)
    {
      var r := rs[k];
      assert rs[..k + 1][..k] == rs[..k];
      if r.model.None? {
        assert gpus + [] == gpus;
        continue;
      }
      gpus := gpus + [GpuRec(r.gpu, r.model.value, WattsOf(watts, r.gpu), r.watts, covered)];
    }
    assert rs[..|rs|] == rs;
    RecordsAre(rs, watts, covered);
    wrote, shares := *, None;
    if !wrote || uses.None? || (uses.value == [] && !named) {
      return;
    }
    shares := SplitClients(gpus, uses.value, index);
    if shares.Some? && nodeW >= 0.0 {
      MinuteAddsUp(nodeW, rs, idle, nodeBaseline, covered, shares.value);
    }
  }
}

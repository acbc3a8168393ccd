/** A minute's model energy split between the clients that held the model's slots, by slot-seconds. */
module ClientSplit {
  import opened Options
  import opened EnergyTiers
  import opened Attribution

  datatype ClientUse = ClientUse(client: string, model: string, busy: real, tokens: nat)

  // One client's part of a model's minute. No client is nobody.
  datatype Share = Share(client: string, model: nat, wh: real, busy: real, tokens: nat)

  // ---- What the minute held ----

  function CardWh(g: GpuRec): real {
    g.attr * g.covered as real / 3600.0
  }

  // A model's energy over its cards. Cards with no model belong to none.
  function ModelWh(gpus: seq<GpuRec>, m: nat): real {
    if gpus == [] then 0.0
    else
      var g := gpus[|gpus| - 1];
      ModelWh(gpus[..|gpus| - 1], m) + if m != 0 && g.model == m then CardWh(g) else 0.0
  }

  // The watt-seconds of a model's cards.
  function ModelWs(gpus: seq<GpuRec>, m: nat): real {
    if gpus == [] then 0.0
    else
      var g := gpus[|gpus| - 1];
      ModelWs(gpus[..|gpus| - 1], m) + if g.model == m then g.attr * g.covered as real else 0.0
  }

  // A watt-hour is 3600 watt-seconds.
  lemma {:induction false} ModelHours(gpus: seq<GpuRec>, m: nat)
    ensures 3600.0 * ModelWh(gpus, m) == if m == 0 then 0.0 else ModelWs(gpus, m)
  {
    if gpus != [] { ModelHours(gpus[..|gpus| - 1], m); }
  }

  predicate Counts(u: ClientUse) {
    u.client != "" && u.model != ""
  }

  function BusyOfUse(us: seq<ClientUse>, index: string -> Option<nat>, c: string, m: nat): real {
    if us == [] then 0.0
    else
      var u := us[|us| - 1];
      BusyOfUse(us[..|us| - 1], index, c, m) + if u.client != "" && u.model != "" && u.client == c && index(u.model) == Some(m) then u.busy else 0.0
  }

  function TokensOfUse(us: seq<ClientUse>, index: string -> Option<nat>, c: string, m: nat): nat {
    if us == [] then 0
    else
      var u := us[|us| - 1];
      TokensOfUse(us[..|us| - 1], index, c, m) + if u.client != "" && u.model != "" && u.client == c && index(u.model) == Some(m) then u.tokens else 0
  }

  // ---- What the shares hold ----

  function SumWh(ss: seq<Share>, m: nat): real {
    if ss == [] then 0.0 else SumWh(ss[..|ss| - 1], m) + if ss[|ss| - 1].model == m then ss[|ss| - 1].wh else 0.0
  }

  function SumBusy(ss: seq<Share>, m: nat): real {
    if ss == [] then 0.0 else SumBusy(ss[..|ss| - 1], m) + if ss[|ss| - 1].model == m then ss[|ss| - 1].busy else 0.0
  }

  // The share of a pair, or none.
  function Pair(ss: seq<Share>, c: string, m: nat): (i: int)
    ensures -1 <= i < |ss| && (i >= 0 ==> ss[i].client == c && ss[i].model == m)
  {
    if ss == [] then -1
    else if ss[|ss| - 1].client == c && ss[|ss| - 1].model == m then |ss| - 1
    else Pair(ss[..|ss| - 1], c, m)
  }

  function PairBusy(ss: seq<Share>, c: string, m: nat): real {
    var i := Pair(ss, c, m);
    if i < 0 then 0.0 else ss[i].busy
  }

  function PairTokens(ss: seq<Share>, c: string, m: nat): nat {
    var i := Pair(ss, c, m);
    if i < 0 then 0 else ss[i].tokens
  }

  predicate PairsApart(ss: seq<Share>) {
    forall i, j :: 0 <= i < j < |ss| ==> ss[i].client != ss[j].client || ss[i].model != ss[j].model
  }

  lemma {:induction false} PairIs(ss: seq<Share>, c: string, m: nat, i: nat)
    requires PairsApart(ss) && i < |ss| && ss[i].client == c && ss[i].model == m
    ensures Pair(ss, c, m) == i
  {
    if i < |ss| - 1 { PairIs(ss[..|ss| - 1], c, m, i); }
  }

  lemma {:induction false} NoPair(ss: seq<Share>, c: string, m: nat, i: nat)
    requires Pair(ss, c, m) < 0 && i < |ss|
    ensures ss[i].client != c || ss[i].model != m
  {
    if i < |ss| - 1 { NoPair(ss[..|ss| - 1], c, m, i); }
  }

  lemma {:induction false} SumBusyUpdate(ss: seq<Share>, i: nat, s: Share, m: nat)
    requires i < |ss| && s.model == ss[i].model
    ensures SumBusy(ss[i := s], m) == SumBusy(ss, m) + if s.model == m then s.busy - ss[i].busy else 0.0
  {
    if i == |ss| - 1 {
      assert ss[i := s][..|ss| - 1] == ss[..|ss| - 1];
    } else {
      SumBusyUpdate(ss[..|ss| - 1], i, s, m);
      assert ss[i := s][..|ss| - 1] == ss[..|ss| - 1][i := s];
    }
  }

  // ---- Merging the uses ----

  function At(busy: map<nat, real>, m: nat): real {
    if m in busy then busy[m] else 0.0
  }

  function AddUse(ss: seq<Share>, u: ClientUse, m: nat): seq<Share> {
    var i := Pair(ss, u.client, m);
    if i < 0 then ss + [Share(u.client, m, 0.0, u.busy, u.tokens)]
    else ss[i := ss[i].(busy := ss[i].busy + u.busy, tokens := ss[i].tokens + u.tokens)]
  }

  ghost predicate MergedOk(ss: seq<Share>, us: seq<ClientUse>, index: string -> Option<nat>) {
    && PairsApart(ss) && (forall i :: 0 <= i < |ss| ==> ss[i].client != "")
    && (forall c, m :: PairBusy(ss, c, m) == BusyOfUse(us, index, c, m))
    && (forall c, m :: PairTokens(ss, c, m) == TokensOfUse(us, index, c, m))
  }

  ghost predicate BusyOk(ss: seq<Share>, busy: map<nat, real>) {
    forall m :: SumBusy(ss, m) == At(busy, m)
  }

  lemma AddUsePair(ss: seq<Share>, u: ClientUse, m: nat, c: string, n: nat)
    requires PairsApart(ss)
    ensures PairsApart(AddUse(ss, u, m))
    ensures PairBusy(AddUse(ss, u, m), c, n) == PairBusy(ss, c, n) + if c == u.client && n == m then u.busy else 0.0
    ensures PairTokens(AddUse(ss, u, m), c, n) == PairTokens(ss, c, n) + if c == u.client && n == m then u.tokens else 0
  {
    var i := Pair(ss, u.client, m);
    var ss' := AddUse(ss, u, m);
    if i < 0 {
      forall j | 0 <= j < |ss| ensures ss[j].client != u.client || ss[j].model != m { NoPair(ss, u.client, m, j); }
      assert ss'[..|ss|] == ss;
    } else {
      var j := Pair(ss, c, n);
      if j >= 0 {
        PairIs(ss', c, n, j);
      } else {
        SamePairs(ss, ss', c, n);
      }
    }
  }

  lemma {:induction false} SamePairs(a: seq<Share>, b: seq<Share>, c: string, m: nat)
    requires |a| == |b| && forall i :: 0 <= i < |a| ==> a[i].client == b[i].client && a[i].model == b[i].model
    ensures Pair(a, c, m) == Pair(b, c, m)
  {
    if a != [] { SamePairs(a[..|a| - 1], b[..|b| - 1], c, m); }
  }

  lemma AddUseOk(ss: seq<Share>, us: seq<ClientUse>, index: string -> Option<nat>, u: ClientUse)
    requires MergedOk(ss, us, index)
    ensures Counts(u) && index(u.model).Some? ==> MergedOk(AddUse(ss, u, index(u.model).value), us + [u], index)
    ensures !Counts(u) ==> MergedOk(ss, us + [u], index)
  {
    hide AddUse, PairBusy, PairTokens;
    assert (us + [u])[..|us|] == us;
    if Counts(u) && index(u.model).Some? {
      var m := index(u.model).value;
      forall c, n
        ensures PairBusy(AddUse(ss, u, m), c, n) == BusyOfUse(us + [u], index, c, n)
        ensures PairTokens(AddUse(ss, u, m), c, n) == TokensOfUse(us + [u], index, c, n)
      {
        AddUsePair(ss, u, m, c, n);
      }
      AddUsePair(ss, u, m, u.client, m);
      NamesKept(ss, u, m);
    }
  }

  lemma NamesKept(ss: seq<Share>, u: ClientUse, m: nat)
    requires Counts(u) && forall i :: 0 <= i < |ss| ==> ss[i].client != ""
    ensures forall i :: 0 <= i < |AddUse(ss, u, m)| ==> AddUse(ss, u, m)[i].client != ""
  {
  }

  lemma AddUseBusy(ss: seq<Share>, busy: map<nat, real>, u: ClientUse, m: nat)
    requires BusyOk(ss, busy)
    ensures BusyOk(AddUse(ss, u, m), busy[m := At(busy, m) + u.busy])
  {
    var i, more := Pair(ss, u.client, m), busy[m := At(busy, m) + u.busy];
    forall n ensures SumBusy(AddUse(ss, u, m), n) == At(more, n) {
      if i < 0 {
        assert AddUse(ss, u, m)[..|ss|] == ss;
      } else {
        SumBusyUpdate(ss, i, ss[i].(busy := ss[i].busy + u.busy, tokens := ss[i].tokens + u.tokens), n);
      }
    }
  }

  method MergeUses(uses: seq<ClientUse>, index: string -> Option<nat>) returns (r: Option<seq<Share>>, busy: map<nat, real>)
    ensures r.None? <==> exists i :: 0 <= i < |uses| && uses[i].client != "" && uses[i].model != "" && index(uses[i].model).None?
    ensures r.Some? ==> MergedOk(r.value, uses, index) && BusyOk(r.value, busy)
  {
    hide MergedOk, BusyOk, AddUse;
    var ss: seq<Share> := [];
    busy := map[];
    NothingMerged(index);
    for i := 0 to |uses|
      invariant MergedOk(ss, uses[..i], index) && BusyOk(ss, busy)
      invariant forall j :: 0 <= j < i ==> !(Counts(uses[j]) && index(uses[j].model).None?)
    {
      var u := uses[i];
      assert uses[..i + 1] == uses[..i] + [u];
      AddUseOk(ss, uses[..i], index, u);
      if Counts(u) {
        if index(u.model).None? {
          return None, busy;
        }
        var m := index(u.model).value;
        AddUseBusy(ss, busy, u, m);
        ss, busy := AddUse(ss, u, m), busy[m := At(busy, m) + u.busy];
      }
    }
    assert uses[..|uses|] == uses;
    r := Some(ss);
  }

  lemma NothingMerged(index: string -> Option<nat>)
    ensures MergedOk([], [], index) && BusyOk([], map[])
  {
  }

  // ---- The energy of the models ----

  ghost predicate EnergyOk(energy: map<nat, real>, models: seq<nat>, gpus: seq<GpuRec>) {
    && (forall m :: m in energy <==> m in models) && 0 !in energy
    && (forall i, j :: 0 <= i < j < |models| ==> models[i] != models[j])
    && (forall m :: At(energy, m) == ModelWh(gpus, m))
  }

  lemma EnergyPush(energy: map<nat, real>, models: seq<nat>, gpus: seq<GpuRec>, g: GpuRec)
    requires EnergyOk(energy, models, gpus)
    ensures g.model == 0 ==> EnergyOk(energy, models, gpus + [g])
    ensures g.model != 0 ==>
      EnergyOk(energy[g.model := At(energy, g.model) + CardWh(g)], if g.model in energy then models else models + [g.model], gpus + [g])
  {
    hide CardWh;
    assert (gpus + [g])[..|gpus|] == gpus;
    if g.model != 0 {
      var more, names := energy[g.model := At(energy, g.model) + CardWh(g)], if g.model in energy then models else models + [g.model];
      forall m ensures m in more <==> m in names {
        assert m in more <==> m in energy || m == g.model;
        assert m in models + [g.model] <==> m in models || m == g.model;
      }
      forall i, j | 0 <= i < j < |names| ensures names[i] != names[j] {
        if j == |models| { assert models[i] in models; }
      }
      forall m ensures At(more, m) == ModelWh(gpus + [g], m) { assert At(energy, m) == ModelWh(gpus, m); }
      assert EnergyOk(more, names, gpus + [g]);
    } else {
      forall m ensures At(energy, m) == ModelWh(gpus + [g], m) { assert At(energy, m) == ModelWh(gpus, m); }
    }
  }

  method SumEnergy(gpus: seq<GpuRec>) returns (energy: map<nat, real>, models: seq<nat>)
    ensures EnergyOk(energy, models, gpus)
  {
    hide CardWh, EnergyOk;
    energy, models := map[], [];
    NoEnergy();
    for i := 0 to |gpus|
      invariant EnergyOk(energy, models, gpus[..i])
    {
      var g := gpus[i];
      assert gpus[..i + 1] == gpus[..i] + [g];
      EnergyPush(energy, models, gpus[..i], g);
      if g.model != 0 {
        if g.model !in energy { models := models + [g.model]; }
        energy := energy[g.model := At(energy, g.model) + CardWh(g)];
      }
    }
    assert gpus[..|gpus|] == gpus;
  }

  lemma NoEnergy()
    ensures EnergyOk(map[], [], [])
  {
  }

  // ---- The split ----

  lemma PartAdds(e: real, x: real, y: real, b: real)
    requires b > 0.0
    ensures Part(e, x + y, b) == Part(e, x, b) + Part(e, y, b) && Part(e, 0.0, b) == 0.0 && Part(e, b, b) == e
  {
    assert e * (x + y) / b == e * x / b + e * y / b;
    assert e * b / b == e;
  }

  // A pair's share of its model's energy, by its part of the busy time.
  function Charged(s: Share, energy: map<nat, real>, busy: map<nat, real>): Share {
    s.(wh := if At(busy, s.model) > 0.0 then Part(At(energy, s.model), s.busy, At(busy, s.model)) else 0.0)
  }

  function ChargeAll(ss: seq<Share>, energy: map<nat, real>, busy: map<nat, real>): (r: seq<Share>)
    ensures |r| == |ss|
  {
    if ss == [] then [] else ChargeAll(ss[..|ss| - 1], energy, busy) + [Charged(ss[|ss| - 1], energy, busy)]
  }

  lemma {:induction false} ChargedWh(ss: seq<Share>, energy: map<nat, real>, busy: map<nat, real>, m: nat)
    ensures At(busy, m) > 0.0 ==> SumWh(ChargeAll(ss, energy, busy), m) == Part(At(energy, m), SumBusy(ss, m), At(busy, m))
    ensures At(busy, m) <= 0.0 ==> SumWh(ChargeAll(ss, energy, busy), m) == 0.0
  {
    hide Part, At;
    if ss == [] {
      if At(busy, m) > 0.0 { PartAdds(At(energy, m), 0.0, 0.0, At(busy, m)); }
    } else {
      var init, s := ss[..|ss| - 1], ss[|ss| - 1];
      ChargedWh(init, energy, busy, m);
      assert ChargeAll(ss, energy, busy)[..|init|] == ChargeAll(init, energy, busy);
      if At(busy, m) > 0.0 { PartAdds(At(energy, m), SumBusy(init, m), s.busy, At(busy, m)); }
    }
  }

  lemma {:induction false} ChargedSame(ss: seq<Share>, energy: map<nat, real>, busy: map<nat, real>, i: nat)
    requires i < |ss|
    ensures ChargeAll(ss, energy, busy)[i] == Charged(ss[i], energy, busy)
  {
    hide Charged;
    if i < |ss| - 1 { ChargedSame(ss[..|ss| - 1], energy, busy, i); }
  }

  // What the models nobody used keep under nobody.
  function Unused(models: seq<nat>, energy: map<nat, real>, busy: map<nat, real>): seq<Share> {
    if models == [] then []
    else
      var m := models[|models| - 1];
      Unused(models[..|models| - 1], energy, busy) +
      if At(busy, m) > 0.0 || At(energy, m) == 0.0 then [] else [Share("", m, At(energy, m), 0.0, 0)]
  }

  lemma {:induction false} UnusedWh(models: seq<nat>, energy: map<nat, real>, busy: map<nat, real>, m: nat)
    requires forall i, j :: 0 <= i < j < |models| ==> models[i] != models[j]
    ensures SumWh(Unused(models, energy, busy), m) == if m in models && At(busy, m) <= 0.0 then At(energy, m) else 0.0
    ensures Pair(Unused(models, energy, busy), "", m) >= 0 ==> m in models
  {
    hide At;
    if models != [] {
      var init, x := models[..|models| - 1], models[|models| - 1];
      UnusedWh(init, energy, busy, m);
      assert models == init + [x];
      var u := Unused(init, energy, busy);
      if !(At(busy, x) > 0.0 || At(energy, x) == 0.0) {
        assert (u + [Share("", x, At(energy, x), 0.0, 0)])[..|u|] == u;
      } else {
        assert u + [] == u;
      }
    }
  }

  lemma {:induction false} SumWhConcat(a: seq<Share>, b: seq<Share>, m: nat)
    ensures SumWh(a + b, m) == SumWh(a, m) + SumWh(b, m)
  {
    if b == [] {
      assert a + b == a;
    } else {
      SumWhConcat(a, b[..|b| - 1], m);
      assert (a + b)[..|a + b| - 1] == a + b[..|b| - 1];
    }
  }

  // The shares of a model add up to the model's energy, whoever used it or nobody.
  lemma SharesAddUp(ss: seq<Share>, gpus: seq<GpuRec>, energy: map<nat, real>, models: seq<nat>, busy: map<nat, real>, m: nat)
    requires EnergyOk(energy, models, gpus) && BusyOk(ss, busy)
    ensures SumWh(ChargeAll(ss, energy, busy) + Unused(models, energy, busy), m) == ModelWh(gpus, m)
  {
    hide Part, ChargeAll, Unused, ModelWh, SumBusy, SumWh;
    SumWhConcat(ChargeAll(ss, energy, busy), Unused(models, energy, busy), m);
    ChargedWh(ss, energy, busy, m);
    UnusedWh(models, energy, busy, m);
    if At(busy, m) > 0.0 { PartAdds(At(energy, m), 0.0, 0.0, At(busy, m)); }
  }

  method SplitClients(gpus: seq<GpuRec>, uses: seq<ClientUse>, index: string -> Option<nat>) returns (r: Option<seq<Share>>)
    ensures r.None? <==> exists i :: 0 <= i < |uses| && uses[i].client != "" && uses[i].model != "" && index(uses[i].model).None?
    ensures r.Some? ==> forall m :: SumWh(r.value, m) == ModelWh(gpus, m)
    ensures r.Some? ==> exists n: nat :: n <= |r.value| && SplitAs(r.value, n, gpus, uses, index)
  {
    hide EnergyOk, BusyOk, MergedOk, ChargeAll, Unused, SplitAs;
    var energy, models := SumEnergy(gpus);
    var merged, busy := MergeUses(uses, index);
    if merged.None? {
      return None;
    }
    var ss := merged.value;
    var out: seq<Share> := [];
    NoCharge(ss, models, energy, busy);
    for i := 0 to |ss|
      invariant out == ChargeAll(ss[..i], energy, busy)
    {
      ChargeMore(ss, energy, busy, i);
      out := out + [Charged(ss[i], energy, busy)];
    }
    assert ss[..|ss|] == ss;
    ghost var named := out;
    for i := 0 to |models|
      invariant out == named + Unused(models[..i], energy, busy)
    {
      UnusedMore(models, energy, busy, i);
      var m := models[i];
      if !(At(busy, m) > 0.0 || At(energy, m) == 0.0) {
        out := out + [Share("", m, At(energy, m), 0.0, 0)];
      }
    }
    assert models[..|models|] == models;
    forall m ensures SumWh(out, m) == ModelWh(gpus, m) { SharesAddUp(ss, gpus, energy, models, busy, m); }
    NamedShares(ss, gpus, uses, index, energy, models, busy);
    r := Some(out);
    assert SplitAs(out, |ss|, gpus, uses, index);
  }

  // The first n shares are the clients': each pair once, with its busy time and tokens, charged
  // in proportion. The rest are nobody's, of models nobody was busy with.
  ghost predicate SplitAs(r: seq<Share>, n: nat, gpus: seq<GpuRec>, uses: seq<ClientUse>, index: string -> Option<nat>)
    requires n <= |r|
  {
    && MergedOk(r[..n], uses, index)
    && (forall i :: 0 <= i < n && SumBusy(r[..n], r[i].model) > 0.0 ==>
          r[i].wh == Part(ModelWh(gpus, r[i].model), r[i].busy, SumBusy(r[..n], r[i].model)))
    && (forall i :: 0 <= i < n && SumBusy(r[..n], r[i].model) <= 0.0 ==> r[i].wh == 0.0)
    && (forall i :: n <= i < |r| ==>
          && r[i].client == "" && SumBusy(r[..n], r[i].model) <= 0.0
          && r[i].wh == ModelWh(gpus, r[i].model) != 0.0 && r[i].busy == 0.0 && r[i].tokens == 0)
  }

  lemma NoCharge(ss: seq<Share>, models: seq<nat>, energy: map<nat, real>, busy: map<nat, real>)
    ensures ChargeAll(ss[..0], energy, busy) == [] && Unused(models[..0], energy, busy) == []
  {
  }

  lemma ChargeMore(ss: seq<Share>, energy: map<nat, real>, busy: map<nat, real>, i: nat)
    requires i < |ss|
    ensures ChargeAll(ss[..i + 1], energy, busy) == ChargeAll(ss[..i], energy, busy) + [Charged(ss[i], energy, busy)]
  {
    hide Charged;
    assert ss[..i + 1][..i] == ss[..i];
  }

  lemma UnusedMore(models: seq<nat>, energy: map<nat, real>, busy: map<nat, real>, i: nat)
    requires i < |models|
    ensures var m := models[i];
      Unused(models[..i + 1], energy, busy) == Unused(models[..i], energy, busy) +
        if At(busy, m) > 0.0 || At(energy, m) == 0.0 then [] else [Share("", m, At(energy, m), 0.0, 0)]
  {
    hide At;
    assert models[..i + 1][..i] == models[..i];
  }

  lemma {:induction false} ChargedBusy(ss: seq<Share>, energy: map<nat, real>, busy: map<nat, real>, m: nat)
    ensures SumBusy(ChargeAll(ss, energy, busy), m) == SumBusy(ss, m)
  {
    if ss != [] {
      ChargedBusy(ss[..|ss| - 1], energy, busy, m);
      assert ChargeAll(ss, energy, busy)[..|ss| - 1] == ChargeAll(ss[..|ss| - 1], energy, busy);
    }
  }

  lemma {:induction false} UnusedIs(models: seq<nat>, energy: map<nat, real>, busy: map<nat, real>, i: nat)
    requires i < |Unused(models, energy, busy)|
    ensures var s := Unused(models, energy, busy)[i];
      s.client == "" && At(busy, s.model) <= 0.0 && s.wh == At(energy, s.model) != 0.0 && s.busy == 0.0 && s.tokens == 0
  {
    hide At;
    var init := models[..|models| - 1];
    if i < |Unused(init, energy, busy)| { UnusedIs(init, energy, busy, i); }
  }

  lemma ChargedMerged(ss: seq<Share>, uses: seq<ClientUse>, index: string -> Option<nat>, energy: map<nat, real>, busy: map<nat, real>)
    requires MergedOk(ss, uses, index)
    ensures MergedOk(ChargeAll(ss, energy, busy), uses, index)
  {
    hide ChargeAll, Part;
    var r := ChargeAll(ss, energy, busy);
    forall i | 0 <= i < |ss|
      ensures r[i].client == ss[i].client && r[i].model == ss[i].model && r[i].busy == ss[i].busy && r[i].tokens == ss[i].tokens
    {
      ChargedSame(ss, energy, busy, i);
    }
    forall c, m ensures PairBusy(r, c, m) == PairBusy(ss, c, m) && PairTokens(r, c, m) == PairTokens(ss, c, m) {
      SamePairs(ss, r, c, m);
    }
  }

  lemma NamedShares(ss: seq<Share>, gpus: seq<GpuRec>, uses: seq<ClientUse>, index: string -> Option<nat>,
                    energy: map<nat, real>, models: seq<nat>, busy: map<nat, real>)
    requires MergedOk(ss, uses, index) && EnergyOk(energy, models, gpus) && BusyOk(ss, busy)
    ensures var r := ChargeAll(ss, energy, busy) + Unused(models, energy, busy);
      |ss| <= |r| && SplitAs(r, |ss|, gpus, uses, index)
  {
    hide ChargeAll, Unused, MergedOk, Part, ModelWh, SumBusy;
    var named := ChargeAll(ss, energy, busy);
    var r := named + Unused(models, energy, busy);
    assert r[..|ss|] == named;
    ChargedMerged(ss, uses, index, energy, busy);
    forall m ensures SumBusy(named, m) == At(busy, m) { ChargedBusy(ss, energy, busy, m); }
    forall i | 0 <= i < |ss| && SumBusy(named, r[i].model) > 0.0
      ensures r[i].wh == Part(ModelWh(gpus, r[i].model), r[i].busy, SumBusy(named, r[i].model))
    {
      ChargedSame(ss, energy, busy, i);
    }
    forall i | 0 <= i < |ss| && SumBusy(named, r[i].model) <= 0.0 ensures r[i].wh == 0.0 { ChargedSame(ss, energy, busy, i); }
    forall i | |ss| <= i < |r|
      ensures r[i].client == "" && SumBusy(named, r[i].model) <= 0.0
      ensures r[i].wh == ModelWh(gpus, r[i].model) != 0.0 && r[i].busy == 0.0 && r[i].tokens == 0
    {
      UnusedIs(models, energy, busy, i - |ss|);
    }
  }
}

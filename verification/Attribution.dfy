/** Node power split between the cards by how far each is above its idle floor, and a baseline. */
module Attribution {

  datatype Reading = Reading(gpu: nat, watts: real)

  // ---- Sums over a map ----

  ghost function Total(m: map<nat, real>): real
    decreases |m|
  {
    if m == map[] then 0.0
    else
      var k :| k in m;
      m[k] + Total(m - {k})
  }

  lemma {:induction false} TotalTake(m: map<nat, real>, k: nat)
    requires k in m
    ensures Total(m) == m[k] + Total(m - {k})
    decreases |m|
  {
    var c :| c in m && Total(m) == m[c] + Total(m - {c});
    if c != k {
      TotalTake(m - {c}, k);
      TotalTake(m - {k}, c);
      assert m - {c} - {k} == m - {k} - {c};
    }
  }

  lemma TotalPut(m: map<nat, real>, k: nat, x: real)
    ensures Total(m[k := x]) == Total(m - {k}) + x
    ensures k !in m ==> Total(m[k := x]) == Total(m) + x
    ensures k in m ==> Total(m[k := x]) == Total(m) - m[k] + x
  {
    TotalTake(m[k := x], k);
    assert m[k := x] - {k} == m - {k};
    if k in m { TotalTake(m, k); } else { assert m - {k} == m; }
  }

  function Times(a: real, x: real): real {
    a * x
  }

  lemma Distribute(a: real, x: real, y: real)
    ensures Times(a, x + y) == Times(a, x) + Times(a, y) && Times(a, 0.0) == 0.0
  {
  }

  lemma {:induction false} TotalScaled(m: map<nat, real>, n: map<nat, real>, a: real)
    requires m.Keys == n.Keys && forall k :: k in m ==> n[k] == Times(a, m[k])
    ensures Total(n) == Times(a, Total(m))
    decreases |m|
  {
    hide Times;
    if m == map[] {
      assert n == map[];
      TotalZero(map[]);
      Distribute(a, 0.0, 0.0);
    } else {
      var k :| k in m;
      TotalTake(m, k);
      TotalTake(n, k);
      TotalScaled(m - {k}, n - {k}, a);
      Distribute(a, m[k], Total(m - {k}));
    }
  }

  lemma {:induction false} TotalZero(m: map<nat, real>)
    requires forall k :: k in m ==> m[k] == 0.0
    ensures Total(m) == 0.0
    decreases |m|
  {
    if m != map[] {
      var k :| k in m;
      TotalTake(m, k);
      TotalZero(m - {k});
    }
  }

  // ---- The split ----

  // How far a reading is above its card's idle floor.
  function Over(r: Reading, idle: map<nat, real>): real {
    var m := r.watts - if r.gpu in idle then idle[r.gpu] else 0.0;
    if m < 0.0 then 0.0 else m
  }

  // Per card; a card read twice keeps its last reading.
  function Marginals(rs: seq<Reading>, idle: map<nat, real>): map<nat, real> {
    if rs == [] then map[]
    else Marginals(rs[..|rs| - 1], idle)[rs[|rs| - 1].gpu := Over(rs[|rs| - 1], idle)]
  }

  function AllMarginal(rs: seq<Reading>, idle: map<nat, real>): real {
    if rs == [] then 0.0 else AllMarginal(rs[..|rs| - 1], idle) + Over(rs[|rs| - 1], idle)
  }

  function Floor(nodeW: real, all: real, nodeBaseline: real): real {
    var b := if nodeW - all < nodeBaseline then nodeW - all else nodeBaseline;
    if b < 0.0 then 0.0 else b
  }

  function Work(nodeW: real, floor: real): real {
    if nodeW - floor < 0.0 then 0.0 else nodeW - floor
  }

  // The share of the work that goes to a card.
  function Part(work: real, m: real, all: real): real
    requires all > 0.0
  {
    work * m / all
  }

  function Shares(marginal: map<nat, real>, all: real, work: real): map<nat, real> {
    if all > 0.0 && work > 0.0 then map g | g in marginal :: Part(work, marginal[g], all)
    else map g | g in marginal :: 0.0
  }

  predicate NonNegative(m: map<nat, real>) {
    forall k :: k in m ==> m[k] >= 0.0
  }

  lemma {:induction false} MarginalsOk(rs: seq<Reading>, idle: map<nat, real>)
    ensures NonNegative(Marginals(rs, idle)) && Total(Marginals(rs, idle)) <= AllMarginal(rs, idle)
    ensures OnceEach(rs) ==>
      Total(Marginals(rs, idle)) == AllMarginal(rs, idle)
  {
    hide Over;
    if rs != [] {
      var init, r := rs[..|rs| - 1], rs[|rs| - 1];
      MarginalsOk(init, idle);
      TotalPut(Marginals(init, idle), r.gpu, Over(r, idle));
      OverOk(r, idle);
      MarginalsKeys(init, idle, r.gpu);
    } else {
      TotalZero(map[]);
    }
  }

  lemma OverOk(r: Reading, idle: map<nat, real>)
    ensures Over(r, idle) >= 0.0
  {
  }

  lemma {:induction false} MarginalsKeys(rs: seq<Reading>, idle: map<nat, real>, g: nat)
    ensures g in Marginals(rs, idle) <==> exists i :: 0 <= i < |rs| && rs[i].gpu == g
  {
    if rs != [] {
      var init := rs[..|rs| - 1];
      MarginalsKeys(init, idle, g);
      if g in Marginals(init, idle) {
        var i :| 0 <= i < |init| && init[i].gpu == g;
        assert rs[i].gpu == g;
      }
      if rs[|rs| - 1].gpu == g { assert rs[|rs| - 1].gpu == g; }
    }
  }

  // The shares come to at most the work, and to all of it when every card is counted once.
  lemma SharesTotal(marginal: map<nat, real>, all: real, work: real)
    requires NonNegative(marginal) && Total(marginal) <= all && work >= 0.0
    ensures Total(Shares(marginal, all, work)) <= work && NonNegative(Shares(marginal, all, work))
    ensures all > 0.0 && Total(marginal) == all ==> Total(Shares(marginal, all, work)) == work
  {
    hide Part, Times;
    var s := Shares(marginal, all, work);
    if all > 0.0 && work > 0.0 {
      var a := work / all;
      forall g | g in marginal ensures s[g] == Times(a, marginal[g]) && s[g] >= 0.0 { Scale(work, marginal[g], all); }
      TotalScaled(marginal, s, a);
      AtMost(work, Total(marginal), all);
    } else {
      TotalZero(s);
    }
  }

  lemma Scale(w: real, m: real, all: real)
    requires all > 0.0 && w > 0.0 && m >= 0.0
    ensures Part(w, m, all) == Times(w / all, m) && Part(w, m, all) >= 0.0
  {
    assert w / all > 0.0;
    assert w * m / all == w / all * m;
  }

  lemma AtMost(w: real, t: real, all: real)
    requires all > 0.0 && w > 0.0 && t <= all
    ensures Times(w / all, t) <= w && (t == all ==> Times(w / all, t) == w)
  {
    var a := w / all;
    assert a > 0.0 && a * all == w;
    assert a * (all - t) >= 0.0;
  }

  // The split as the code computes it: marginal draw, floor, shares, and what is left.
  method Attribute(nodeW: real, readings: seq<Reading>, idle: map<nat, real>, nodeBaseline: real)
    returns (baseline: real, watts: map<nat, real>)
    ensures watts == Shares(Marginals(readings, idle), AllMarginal(readings, idle),
                            Work(nodeW, Floor(nodeW, AllMarginal(readings, idle), nodeBaseline)))
    ensures baseline == Work(nodeW, Total(watts))
  {
    hide Over, Part;
    var marginal: map<nat, real>, all := map[], 0.0;
    watts := map[];
    for i := 0 to |readings|
      invariant marginal == Marginals(readings[..i], idle) && all == AllMarginal(readings[..i], idle)
      invariant watts.Keys == marginal.Keys && forall g :: g in watts ==> watts[g] == 0.0
    {
      assert readings[..i + 1][..i] == readings[..i];
      var r := readings[i];
      var m := Over(r, idle);
      marginal, all := marginal[r.gpu := m], all + m;
      watts := watts[r.gpu := 0.0];
    }
    assert readings[..|readings|] == readings;
    var floor := nodeBaseline;
    if nodeW - all < floor { floor := nodeW - all; }
    if floor < 0.0 { floor := 0.0; }
    var work := nodeW - floor;
    if work < 0.0 { work := 0.0; }
    if all > 0.0 && work > 0.0 {
      watts := Spread(marginal, all, work, watts);
    }
    assert watts == Shares(marginal, all, work);
    var charged := SumUp(watts);
    baseline := nodeW - charged;
    if baseline < 0.0 { baseline := 0.0; }
  }

  method Spread(marginal: map<nat, real>, all: real, work: real, zero: map<nat, real>) returns (watts: map<nat, real>)
    requires all > 0.0 && work > 0.0 && zero.Keys == marginal.Keys
    ensures watts == Shares(marginal, all, work)
  {
    hide Part;
    watts := zero;
    var left := marginal.Keys;
    while left != {}
      invariant left <= marginal.Keys == watts.Keys
      invariant forall g :: g in marginal && g !in left ==> watts[g] == Part(work, marginal[g], all)
      decreases left
    {
      var g :| g in left;
      left := left - {g};
      watts := watts[g := Part(work, marginal[g], all)];
    }
  }

  method SumUp(m: map<nat, real>) returns (sum: real)
    ensures sum == Total(m)
  {
    sum := 0.0;
    var left := m;
    while left != map[]
      invariant sum + Total(left) == Total(m)
      decreases |left|
    {
      var k :| k in left;
      TotalTake(left, k);
      sum := sum + left[k];
      left := left - {k};
    }
    TotalZero(left);
  }

  // The split always reconciles, and charges no card less than nothing: baseline and shares come
  // to node power exactly when node power is not negative.
  lemma Reconciles(nodeW: real, readings: seq<Reading>, idle: map<nat, real>, nodeBaseline: real)
    ensures var watts := Shares(Marginals(readings, idle), AllMarginal(readings, idle),
                                Work(nodeW, Floor(nodeW, AllMarginal(readings, idle), nodeBaseline)));
      && NonNegative(watts) && Work(nodeW, Total(watts)) >= 0.0
      && (Work(nodeW, Total(watts)) + Total(watts) == nodeW <==> nodeW >= 0.0)
  {
    hide Marginals, AllMarginal, Shares, Total, NonNegative;
    var m, all := Marginals(readings, idle), AllMarginal(readings, idle);
    MarginalsOk(readings, idle);
    var work := Work(nodeW, Floor(nodeW, all, nodeBaseline));
    SharesTotal(m, all, work);
    SharesNotNegative(Shares(m, all, work));
  }

  lemma {:induction false} SharesNotNegative(m: map<nat, real>)
    requires NonNegative(m)
    ensures Total(m) >= 0.0
    decreases |m|
  {
    if m != map[] {
      var k :| k in m;
      TotalTake(m, k);
      SharesNotNegative(m - {k});
    }
  }

  // ---- What is charged, from the readings ----

  function Sum(xs: seq<real>): real {
    if xs == [] then 0.0 else Sum(xs[..|xs| - 1]) + xs[|xs| - 1]
  }

  // draw[i] is how far the reading i is above its card's idle floor, and nothing below it.
  predicate Draws(readings: seq<Reading>, idle: map<nat, real>, draw: seq<real>) {
    |draw| == |readings| && forall i :: 0 <= i < |draw| ==>
      var floor := if readings[i].gpu in idle then idle[readings[i].gpu] else 0.0;
      && (readings[i].watts >= floor ==> draw[i] == readings[i].watts - floor)
      && (readings[i].watts < floor ==> draw[i] == 0.0)
  }

  predicate OnceEach(readings: seq<Reading>) {
    forall i, j :: 0 <= i < j < |readings| ==> readings[i].gpu != readings[j].gpu
  }

  lemma {:induction false} DrawsAll(readings: seq<Reading>, idle: map<nat, real>, draw: seq<real>)
    requires Draws(readings, idle, draw)
    ensures AllMarginal(readings, idle) == Sum(draw)
    ensures OnceEach(readings) ==>
      forall i :: 0 <= i < |draw| ==> readings[i].gpu in Marginals(readings, idle) && Marginals(readings, idle)[readings[i].gpu] == draw[i]
  {
    if readings != [] {
      var n := |readings| - 1;
      DrawsAll(readings[..n], idle, draw[..n]);
      assert Over(readings[n], idle) == draw[n];
    }
  }

  // The floor is the lower of the one given and the power the cards do not explain, and at least
  // nothing; and not above node power.
  lemma FloorIs(nodeW: real, all: real, nodeBaseline: real)
    ensures var b := Floor(nodeW, all, nodeBaseline);
      && (nodeBaseline <= nodeW - all && nodeBaseline >= 0.0 ==> b == nodeBaseline)
      && (nodeW - all <= nodeBaseline && nodeW - all >= 0.0 ==> b == nodeW - all)
      && (nodeBaseline < 0.0 || nodeW - all < 0.0 ==> b == 0.0)
      && (nodeW >= 0.0 && all >= 0.0 ==> b <= nodeW)
  {
  }

  lemma PartIs(work: real, d: real, all: real)
    requires all > 0.0
    ensures Part(work, d, all) * all == work * d && (work == 0.0 ==> Part(work, d, all) == 0.0)
  {
    if work == 0.0 { assert work * d == 0.0; }
  }

  // For any node power that is not negative, with every card read once: if a card is above its idle
  // floor, the baseline is the lower of the one given and the power the cards do not explain, and at
  // least nothing; all power above it is charged to the cards, in proportion to how far each is above
  // its floor. If none is, all is baseline.
  lemma ChargesAllWork(nodeW: real, readings: seq<Reading>, idle: map<nat, real>, nodeBaseline: real, draw: seq<real>)
    requires nodeW >= 0.0 && |draw| == |readings| && OnceEach(readings) && Draws(readings, idle, draw)
    ensures var all := AllMarginal(readings, idle);
      var watts := Shares(Marginals(readings, idle), all, Work(nodeW, Floor(nodeW, all, nodeBaseline)));
      var baseline := Work(nodeW, Total(watts));
      && Sum(draw) >= 0.0
      && (Sum(draw) > 0.0 ==>
            && (nodeBaseline <= nodeW - Sum(draw) && nodeBaseline >= 0.0 ==> baseline == nodeBaseline)
            && (nodeW - Sum(draw) <= nodeBaseline && nodeW - Sum(draw) >= 0.0 ==> baseline == nodeW - Sum(draw))
            && (nodeBaseline < 0.0 || nodeW - Sum(draw) < 0.0 ==> baseline == 0.0)
            && (forall i :: 0 <= i < |draw| ==> readings[i].gpu in watts && InShare(watts[readings[i].gpu], nodeW - baseline, draw[i], Sum(draw))))
      && (Sum(draw) == 0.0 ==> baseline == nodeW && forall g :: g in watts ==> watts[g] == 0.0)
  {
    hide Marginals, AllMarginal, Total, NonNegative, Sum, Draws, Part, Floor, InShare, OnceEach;
    var m, all := Marginals(readings, idle), AllMarginal(readings, idle);
    FloorIs(nodeW, all, nodeBaseline);
    var work := Work(nodeW, Floor(nodeW, all, nodeBaseline));
    var watts := Shares(m, all, work);
    DrawsAll(readings, idle, draw);
    MarginalsOk(readings, idle);
    SharesNotNegative(m);
    SharesTotal(m, all, work);
    if Sum(draw) > 0.0 {
      forall i | 0 <= i < |draw| ensures readings[i].gpu in watts && InShare(watts[readings[i].gpu], work, draw[i], Sum(draw)) {
        ShareIs(watts[readings[i].gpu], work, draw[i], Sum(draw));
      }
    } else {
      TotalZero(watts);
    }
  }

  // x is to the work as d is to all.
  predicate InShare(x: real, work: real, d: real, all: real) {
    x * all == work * d
  }

  lemma ShareIs(x: real, work: real, d: real, all: real)
    requires all > 0.0 && x == if work > 0.0 then Part(work, d, all) else 0.0
    requires work >= 0.0
    ensures InShare(x, work, d, all)
  {
    PartIs(work, d, all);
  }
}

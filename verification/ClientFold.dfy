/** Client records made to fit the lanes of a slot, and minutes summed into an hour. */
module ClientFold {

  const MAX_UINT32: nat := 0xFFFF_FFFF

  datatype Piece = Piece(client: nat, model: nat, wh: real, busy: nat, tokens: nat)

  function Clamp(v: nat): nat {
    if v > MAX_UINT32 then MAX_UINT32 else v
  }

  function TotalWh(ps: seq<Piece>): real {
    if ps == [] then 0.0 else TotalWh(ps[..|ps| - 1]) + ps[|ps| - 1].wh
  }

  function TotalBusy(ps: seq<Piece>): nat {
    if ps == [] then 0 else TotalBusy(ps[..|ps| - 1]) + ps[|ps| - 1].busy
  }

  function TotalTokens(ps: seq<Piece>): nat {
    if ps == [] then 0 else TotalTokens(ps[..|ps| - 1]) + ps[|ps| - 1].tokens
  }

  predicate SameTotals(a: seq<Piece>, b: seq<Piece>) {
    TotalWh(a) == TotalWh(b) && TotalBusy(a) == TotalBusy(b) && TotalTokens(a) == TotalTokens(b)
  }

  lemma {:induction false} TotalsConcat(a: seq<Piece>, b: seq<Piece>)
    ensures TotalWh(a + b) == TotalWh(a) + TotalWh(b)
    ensures TotalBusy(a + b) == TotalBusy(a) + TotalBusy(b)
    ensures TotalTokens(a + b) == TotalTokens(a) + TotalTokens(b)
  {
    if b == [] {
      assert a + b == a;
    } else {
      TotalsConcat(a, b[..|b| - 1]);
      assert (a + b)[..|a + b| - 1] == a + b[..|b| - 1];
    }
  }

  lemma TotalsOne(p: Piece)
    ensures TotalWh([p]) == p.wh && TotalBusy([p]) == p.busy && TotalTokens([p]) == p.tokens
  {
    assert [p][..0] == [];
  }

  // ---- Largest first ----

  function Insert(ps: seq<Piece>, p: Piece): seq<Piece> {
    if ps == [] || ps[|ps| - 1].wh >= p.wh then ps + [p]
    else Insert(ps[..|ps| - 1], p) + [ps[|ps| - 1]]
  }

  // By energy, larger first; equals stay in the order they came.
  function Largest(ps: seq<Piece>): seq<Piece> {
    if ps == [] then [] else Insert(Largest(ps[..|ps| - 1]), ps[|ps| - 1])
  }

  predicate Falling(ps: seq<Piece>) {
    forall i, j :: 0 <= i < j < |ps| ==> ps[i].wh >= ps[j].wh
  }

  lemma {:induction false} InsertFalling(ps: seq<Piece>, p: Piece)
    requires Falling(ps)
    ensures Falling(Insert(ps, p)) && forall x :: x in Insert(ps, p) ==> x in ps || x == p
  {
    if ps != [] && ps[|ps| - 1].wh < p.wh {
      var init, last := ps[..|ps| - 1], ps[|ps| - 1];
      InsertFalling(init, p);
      var r := Insert(init, p);
      forall x | x in r ensures x.wh >= last.wh && (x in ps || x == p) {
        if x != p {
          var k :| 0 <= k < |init| && init[k] == x;
          assert ps[k] == x;
        }
      }
    }
  }

  lemma {:induction false} InsertSame(ps: seq<Piece>, p: Piece)
    ensures multiset(Insert(ps, p)) == multiset(ps) + multiset{p}
  {
    if ps != [] && ps[|ps| - 1].wh < p.wh {
      InsertSame(ps[..|ps| - 1], p);
      assert ps == ps[..|ps| - 1] + [ps[|ps| - 1]];
    }
  }

  lemma {:induction false} LargestKeeps(ps: seq<Piece>)
    ensures Falling(Largest(ps)) && multiset(Largest(ps)) == multiset(ps) && |Largest(ps)| == |ps|
  {
    hide Falling;
    if ps == [] {
      NoneFalls();
    } else {
      var init, last := ps[..|ps| - 1], ps[|ps| - 1];
      LargestKeeps(init);
      InsertFalling(Largest(init), last);
      InsertSame(Largest(init), last);
      assert ps == init + [last];
      assert |Largest(ps)| == |multiset(Largest(ps))| == |multiset(ps)|;
    }
  }

  lemma NoneFalls()
    ensures Falling([])
  {
  }

  lemma {:induction false} InsertTotals(ps: seq<Piece>, p: Piece)
    ensures SameTotals(Insert(ps, p), ps + [p])
  {
    hide TotalWh, TotalBusy, TotalTokens;
    TotalsConcat(ps, [p]);
    TotalsOne(p);
    if ps == [] || ps[|ps| - 1].wh >= p.wh {
    } else {
      var init, last := ps[..|ps| - 1], ps[|ps| - 1];
      InsertTotals(init, p);
      TotalsConcat(init, [p]);
      TotalsConcat(init, [last]);
      TotalsConcat(Insert(init, p), [last]);
      TotalsOne(last);
      assert ps == init + [last];
    }
  }

  lemma {:induction false} LargestTotals(ps: seq<Piece>)
    ensures SameTotals(Largest(ps), ps)
  {
    if ps != [] {
      hide TotalWh, TotalBusy, TotalTokens, Insert;
      var init, last := ps[..|ps| - 1], ps[|ps| - 1];
      LargestTotals(init);
      InsertTotals(Largest(init), last);
      TotalsConcat(Largest(init), [last]);
      TotalsConcat(init, [last]);
      assert ps == init + [last];
    }
  }

  // ---- Folding ----

  function Rest(ps: seq<Piece>, other: nat): Piece {
    Piece(other, 0, TotalWh(ps), Clamp(TotalBusy(ps)), Clamp(TotalTokens(ps)))
  }

  // At most as many pieces as lanes: the largest keep a lane each, the rest share the last.
  function Folded(ps: seq<Piece>, lanes: nat, other: nat): (r: seq<Piece>)
    requires lanes >= 1
    ensures |r| == if |ps| <= lanes then |ps| else lanes
  {
    if |ps| <= lanes then ps
    else
      LargestKeeps(ps);
      Largest(ps)[..lanes - 1] + [Rest(Largest(ps)[lanes - 1..], other)]
  }

  // The pieces that lose their lane.
  function Dropped(ps: seq<Piece>, lanes: nat): seq<Piece>
    requires lanes >= 1
  {
    LargestKeeps(ps);
    if |ps| <= lanes then [] else Largest(ps)[lanes - 1..]
  }

  // No energy is lost, and no busy time or token either exactly when the shared lane can count it.
  lemma FoldKeeps(ps: seq<Piece>, lanes: nat, other: nat)
    requires lanes >= 1
    ensures var r, d := Folded(ps, lanes, other), Dropped(ps, lanes);
      && |r| <= lanes && TotalWh(r) == TotalWh(ps)
      && (TotalBusy(r) == TotalBusy(ps) <==> TotalBusy(d) <= MAX_UINT32)
      && (TotalTokens(r) == TotalTokens(ps) <==> TotalTokens(d) <= MAX_UINT32)
      && TotalBusy(r) <= TotalBusy(ps) && TotalTokens(r) <= TotalTokens(ps)
  {
    hide Largest, TotalWh, TotalBusy, TotalTokens;
    LargestKeeps(ps);
    if |ps| > lanes {
      var s := Largest(ps);
      var kept, d := s[..lanes - 1], s[lanes - 1..];
      LargestTotals(ps);
      TotalsConcat(kept, d);
      TotalsConcat(kept, [Rest(d, other)]);
      TotalsOne(Rest(d, other));
      assert kept + d == s;
    } else {
      NothingTotals();
    }
  }

  lemma NothingTotals()
    ensures TotalBusy([]) == 0 && TotalTokens([]) == 0
  {
  }

  // The pieces that keep their lane are the largest, and with the others they are all there were; the
  // others share the lane of the client other, with no model.
  lemma FoldKeepsLargest(ps: seq<Piece>, lanes: nat, other: nat, i: nat, j: nat)
    requires lanes >= 1 && |ps| > lanes
    ensures var r, d := Folded(ps, lanes, other), Dropped(ps, lanes);
      && multiset(r[..lanes - 1]) + multiset(d) == multiset(ps)
      && (i < lanes - 1 && j < |d| ==> r[i].wh >= d[j].wh)
      && r[lanes - 1].client == other && r[lanes - 1].model == 0 && r[lanes - 1].wh == TotalWh(d)
  {
    hide Largest;
    LargestKeeps(ps);
    var s := Largest(ps);
    var r, d := Folded(ps, lanes, other), Dropped(ps, lanes);
    assert r[..lanes - 1] == s[..lanes - 1];
    assert s == s[..lanes - 1] + d;
    if i < lanes - 1 && j < |d| { assert r[i] == s[i] && d[j] == s[lanes - 1 + j]; }
  }

  method Fold(ps: seq<Piece>, lanes: nat, other: nat) returns (r: seq<Piece>)
    requires lanes >= 1
    ensures r == Folded(ps, lanes, other)
  {
    hide Largest;
    if |ps| <= lanes {
      return ps;
    }
    LargestKeeps(ps);
    var s := Largest(ps);
    var keep := lanes - 1;
    var wh, busy, tokens := 0.0, 0, 0;
    ghost var d := s[keep..];
    for i := keep to |s|
      invariant wh == TotalWh(d[..i - keep]) && busy == TotalBusy(d[..i - keep]) && tokens == TotalTokens(d[..i - keep])
    {
      assert d[..i - keep + 1][..i - keep] == d[..i - keep] && d[i - keep] == s[i];
      wh, busy, tokens := wh + s[i].wh, busy + s[i].busy, tokens + s[i].tokens;
    }
    assert d[..|d|] == d;
    r := s[..keep] + [Piece(other, 0, wh, Clamp(busy), Clamp(tokens))];
  }

  // ---- An hour from its minutes ----

  function PairAt(ps: seq<Piece>, c: nat, m: nat): (i: int)
    ensures -1 <= i < |ps| && (i >= 0 ==> ps[i].client == c && ps[i].model == m)
  {
    if ps == [] then -1
    else if ps[|ps| - 1].client == c && ps[|ps| - 1].model == m then |ps| - 1
    else PairAt(ps[..|ps| - 1], c, m)
  }

  function AddPiece(ps: seq<Piece>, p: Piece): seq<Piece> {
    var i := PairAt(ps, p.client, p.model);
    if i < 0 then ps + [p]
    else ps[i := ps[i].(wh := ps[i].wh + p.wh, busy := ps[i].busy + p.busy, tokens := ps[i].tokens + p.tokens)]
  }

  // The sum of each pair, in the order the pairs first come.
  function PairSums(ps: seq<Piece>): seq<Piece> {
    if ps == [] then [] else AddPiece(PairSums(ps[..|ps| - 1]), ps[|ps| - 1])
  }

  lemma {:induction false} UpdateTotals(ps: seq<Piece>, i: nat, p: Piece)
    requires i < |ps|
    ensures TotalWh(ps[i := p]) == TotalWh(ps) - ps[i].wh + p.wh
    ensures TotalBusy(ps[i := p]) == TotalBusy(ps) - ps[i].busy + p.busy
    ensures TotalTokens(ps[i := p]) == TotalTokens(ps) - ps[i].tokens + p.tokens
  {
    if i == |ps| - 1 {
      assert ps[i := p][..|ps| - 1] == ps[..|ps| - 1];
    } else {
      UpdateTotals(ps[..|ps| - 1], i, p);
      assert ps[i := p][..|ps| - 1] == ps[..|ps| - 1][i := p];
    }
  }

  lemma AddPieceTotals(ps: seq<Piece>, p: Piece)
    ensures SameTotals(AddPiece(ps, p), ps + [p])
  {
    hide TotalWh, TotalBusy, TotalTokens, PairAt;
    TotalsConcat(ps, [p]);
    TotalsOne(p);
    var i := PairAt(ps, p.client, p.model);
    if i >= 0 {
      UpdateTotals(ps, i, ps[i].(wh := ps[i].wh + p.wh, busy := ps[i].busy + p.busy, tokens := ps[i].tokens + p.tokens));
    }
  }

  lemma SumsPush(init: seq<Piece>, last: Piece)
    ensures PairSums(init + [last]) == AddPiece(PairSums(init), last) && PairSums([]) == []
  {
    hide AddPiece;
    assert (init + [last])[..|init|] == init;
  }

  lemma {:induction false} PairSumsTotals(ps: seq<Piece>)
    ensures SameTotals(PairSums(ps), ps)
  {
    hide PairSums, AddPiece, TotalWh, TotalBusy, TotalTokens;
    if ps == [] {
      SumsPush([], Piece(0, 0, 0.0, 0, 0));
    } else {
      var init, last := ps[..|ps| - 1], ps[|ps| - 1];
      assert ps == init + [last];
      SumsPush(init, last);
      PairSumsTotals(init);
      AddPieceTotals(PairSums(init), last);
      TotalsConcat(PairSums(init), [last]);
      TotalsConcat(init, [last]);
    }
  }

  // The pieces of one pair.
  function OfPair(ps: seq<Piece>, c: nat, m: nat): seq<Piece> {
    if ps == [] then []
    else
      var p := ps[|ps| - 1];
      OfPair(ps[..|ps| - 1], c, m) + if p.client == c && p.model == m then [p] else []
  }

  lemma OfPairPush(init: seq<Piece>, p: Piece, c: nat, m: nat)
    ensures OfPair(init + [p], c, m) == OfPair(init, c, m) + (if p.client == c && p.model == m then [p] else [])
  {
    assert (init + [p])[..|init|] == init;
  }

  predicate SumsTo(ps: seq<Piece>, of: seq<Piece>, c: nat, m: nat) {
    var i := PairAt(ps, c, m);
    if of == [] then i < 0
    else i >= 0 && ps[i].wh == TotalWh(of) && ps[i].busy == TotalBusy(of) && ps[i].tokens == TotalTokens(of)
  }

  lemma {:induction false} SamePairAt(a: seq<Piece>, b: seq<Piece>, c: nat, m: nat)
    requires |a| == |b| && forall i :: 0 <= i < |a| ==> a[i].client == b[i].client && a[i].model == b[i].model
    ensures PairAt(a, c, m) == PairAt(b, c, m)
  {
    if a != [] { SamePairAt(a[..|a| - 1], b[..|b| - 1], c, m); }
  }

  lemma PairAtPush(ps: seq<Piece>, p: Piece, c: nat, m: nat)
    ensures PairAt(ps + [p], c, m) == if p.client == c && p.model == m then |ps| else PairAt(ps, c, m)
  {
    assert (ps + [p])[..|ps|] == ps;
  }

  lemma AddPieceSums(ps: seq<Piece>, p: Piece, of: seq<Piece>, c: nat, m: nat)
    requires SumsTo(ps, of, c, m)
    ensures SumsTo(AddPiece(ps, p), of + (if p.client == c && p.model == m then [p] else []), c, m)
  {
    hide TotalWh, TotalBusy, TotalTokens, PairAt;
    var i := PairAt(ps, p.client, p.model);
    TotalsConcat(of, [p]);
    TotalsOne(p);
    assert of + [] == of;
    if i < 0 {
      PairAtPush(ps, p, c, m);
      assert [] + [p] == [p];
    } else {
      SamePairAt(ps, AddPiece(ps, p), c, m);
    }
  }

  // Each pair of the hour is one piece, with exactly the sums of that pair's pieces.
  lemma {:induction false} PairSumsExact(ps: seq<Piece>, c: nat, m: nat)
    ensures SumsTo(PairSums(ps), OfPair(ps, c, m), c, m)
  {
    if ps == [] {
    } else {
      hide PairSums, OfPair, SumsTo, AddPiece;
      var init, p := ps[..|ps| - 1], ps[|ps| - 1];
      assert ps == init + [p];
      PairSumsExact(init, c, m);
      SumsPush(init, p);
      OfPairPush(init, p, c, m);
      AddPieceSums(PairSums(init), p, OfPair(init, c, m), c, m);
    }
  }

  function Stored(p: Piece): Piece {
    p.(busy := Clamp(p.busy), tokens := Clamp(p.tokens))
  }

  function StoreAll(ps: seq<Piece>): seq<Piece> {
    if ps == [] then [] else StoreAll(ps[..|ps| - 1]) + [Stored(ps[|ps| - 1])]
  }

  predicate BusyFits(ps: seq<Piece>) {
    forall i :: 0 <= i < |ps| ==> ps[i].busy <= MAX_UINT32
  }

  predicate TokensFit(ps: seq<Piece>) {
    forall i :: 0 <= i < |ps| ==> ps[i].tokens <= MAX_UINT32
  }

  lemma FitsPush(init: seq<Piece>, p: Piece)
    ensures BusyFits(init + [p]) <==> BusyFits(init) && p.busy <= MAX_UINT32
    ensures TokensFit(init + [p]) <==> TokensFit(init) && p.tokens <= MAX_UINT32
    ensures StoreAll(init + [p]) == StoreAll(init) + [Stored(p)]
  {
    var ps := init + [p];
    assert ps[..|init|] == init && ps[|init|] == p;
    forall i | 0 <= i < |init| ensures init[i] == ps[i] { }
  }

  lemma {:induction false} StoreTotals(ps: seq<Piece>)
    ensures TotalWh(StoreAll(ps)) == TotalWh(ps)
    ensures TotalBusy(StoreAll(ps)) <= TotalBusy(ps) && TotalTokens(StoreAll(ps)) <= TotalTokens(ps)
    ensures TotalBusy(StoreAll(ps)) == TotalBusy(ps) <==> BusyFits(ps)
    ensures TotalTokens(StoreAll(ps)) == TotalTokens(ps) <==> TokensFit(ps)
  {
    if ps == [] {
    } else {
      hide StoreAll, TotalWh, TotalBusy, TotalTokens, BusyFits, TokensFit;
      var init, p := ps[..|ps| - 1], ps[|ps| - 1];
      assert ps == init + [p];
      StoreTotals(init);
      FitsPush(init, p);
      TotalsConcat(init, [p]);
      TotalsConcat(StoreAll(init), [Stored(p)]);
      TotalsOne(p);
      TotalsOne(Stored(p));
    }
  }

  function Hour(minutes: seq<Piece>, lanes: nat, other: nat): seq<Piece>
    requires lanes >= 1
  {
    Folded(StoreAll(PairSums(minutes)), lanes, other)
  }

  // An hour holds its minutes' energy in at most the lanes there are, and their busy time and
  // tokens exactly when no pair and no shared lane passes the ceiling of its field.
  lemma HourKeeps(minutes: seq<Piece>, lanes: nat, other: nat)
    requires lanes >= 1
    ensures var h, pairs := Hour(minutes, lanes, other), PairSums(minutes);
      var d := Dropped(StoreAll(pairs), lanes);
      && |h| <= lanes && TotalWh(h) == TotalWh(minutes)
      && (TotalBusy(h) == TotalBusy(minutes) <==> BusyFits(pairs) && TotalBusy(d) <= MAX_UINT32)
      && (TotalTokens(h) == TotalTokens(minutes) <==> TokensFit(pairs) && TotalTokens(d) <= MAX_UINT32)
  {
    hide Folded, Dropped, StoreAll, PairSums, TotalWh, TotalBusy, TotalTokens, BusyFits, TokensFit;
    PairSumsTotals(minutes);
    StoreTotals(PairSums(minutes));
    FoldKeeps(StoreAll(PairSums(minutes)), lanes, other);
  }

  // ---- What an hour holds of each pair ----

  predicate SamePair(p: Piece, q: Piece) {
    p.client == q.client && p.model == q.model
  }

  predicate Apart(ps: seq<Piece>) {
    forall i, j :: 0 <= i < j < |ps| ==> !SamePair(ps[i], ps[j])
  }

  lemma {:induction false} PairAtNone(ps: seq<Piece>, c: nat, m: nat, i: nat)
    requires PairAt(ps, c, m) < 0 && i < |ps|
    ensures !(ps[i].client == c && ps[i].model == m)
  {
    if i < |ps| - 1 { PairAtNone(ps[..|ps| - 1], c, m, i); }
  }

  lemma AddPieceApart(ps: seq<Piece>, p: Piece)
    requires Apart(ps)
    ensures Apart(AddPiece(ps, p))
  {
    hide PairAt;
    if PairAt(ps, p.client, p.model) < 0 {
      forall i | 0 <= i < |ps| ensures !SamePair(ps[i], p) { PairAtNone(ps, p.client, p.model, i); }
    }
  }

  lemma {:induction false} PairSumsApart(ps: seq<Piece>)
    ensures Apart(PairSums(ps))
  {
    hide AddPiece;
    if ps != [] {
      PairSumsApart(ps[..|ps| - 1]);
      AddPieceApart(PairSums(ps[..|ps| - 1]), ps[|ps| - 1]);
    }
  }

  // The piece is the sum of its pair's pieces, as far as its fields can hold it.
  predicate IsSum(p: Piece, ps: seq<Piece>) {
    var of := OfPair(ps, p.client, p.model);
    of != [] && p.wh == TotalWh(of) && p.busy == Clamp(TotalBusy(of)) && p.tokens == Clamp(TotalTokens(of))
  }

  lemma {:induction false} StoredAt(ps: seq<Piece>, i: nat)
    requires i < |ps|
    ensures |StoreAll(ps)| == |ps| && StoreAll(ps)[i] == Stored(ps[i])
  {
    if i < |ps| - 1 {
      StoredAt(ps[..|ps| - 1], i);
    } else if i > 0 {
      StoredAt(ps[..|ps| - 1], i - 1);
    }
  }

  lemma StoredLength(ps: seq<Piece>)
    ensures |StoreAll(ps)| == |ps|
  {
    if ps != [] { StoredAt(ps, 0); }
  }

  lemma SumStored(ps: seq<Piece>, i: nat)
    requires i < |PairSums(ps)|
    ensures |StoreAll(PairSums(ps))| == |PairSums(ps)| && IsSum(StoreAll(PairSums(ps))[i], ps)
    ensures SamePair(StoreAll(PairSums(ps))[i], PairSums(ps)[i])
  {
    hide PairSums, StoreAll, OfPair, TotalWh, TotalBusy, TotalTokens, Clamp, PairAt;
    var p := PairSums(ps)[i];
    PairSumsApart(ps);
    PairSumsExact(ps, p.client, p.model);
    var k := PairAt(PairSums(ps), p.client, p.model);
    if k < 0 { PairAtNone(PairSums(ps), p.client, p.model, i); }
    assert k == i;
    StoredAt(PairSums(ps), i);
  }

  // The stored sums: each is its pair's, no pair has two, and every pair has one.
  lemma StoredSums(ps: seq<Piece>)
    ensures var st := StoreAll(PairSums(ps));
      && |st| == |PairSums(ps)| && Apart(st)
      && (forall q :: q in st ==> IsSum(q, ps))
      && (forall x :: x in ps ==> exists q :: q in st && SamePair(q, x))
  {
    hide PairSums, StoreAll, IsSum;
    var pairs, st := PairSums(ps), StoreAll(PairSums(ps));
    StoredLength(pairs);
    PairSumsApart(ps);
    forall i | 0 <= i < |st| ensures IsSum(st[i], ps) && SamePair(st[i], pairs[i]) { SumStored(ps, i); }
    forall x | x in ps ensures exists q :: q in st && SamePair(q, x) {
      PairSumsExact(ps, x.client, x.model);
      InPair(ps, x);
      var k := PairAt(pairs, x.client, x.model);
      assert st[k] in st && SamePair(st[k], pairs[k]);
    }
  }

  lemma {:induction false} InPair(ps: seq<Piece>, x: Piece)
    requires x in ps
    ensures OfPair(ps, x.client, x.model) != []
  {
    if ps[|ps| - 1] != x {
      assert ps == ps[..|ps| - 1] + [ps[|ps| - 1]];
      InPair(ps[..|ps| - 1], x);
    }
  }

  lemma {:induction false} LargestApart(ps: seq<Piece>)
    requires Apart(ps)
    ensures Apart(Largest(ps)) && forall q :: q in Largest(ps) <==> q in ps
  {
    hide Insert;
    LargestKeeps(ps);
    forall q ensures q in Largest(ps) <==> q in ps { assert q in multiset(Largest(ps)) <==> q in multiset(ps); }
    if ps != [] {
      var init, last := ps[..|ps| - 1], ps[|ps| - 1];
      LargestApart(init);
      assert ps == init + [last];
      forall q | q in Largest(init) ensures !SamePair(q, last) {
        var k :| 0 <= k < |init| && init[k] == q;
        assert ps[k] == q;
      }
      InsertApart(Largest(init), last);
    }
  }

  lemma {:induction false} InsertApart(ps: seq<Piece>, p: Piece)
    requires Apart(ps) && forall q :: q in ps ==> !SamePair(q, p)
    ensures Apart(Insert(ps, p))
  {
    if ps != [] && ps[|ps| - 1].wh < p.wh {
      var init, last := ps[..|ps| - 1], ps[|ps| - 1];
      assert last in ps && forall q :: q in init ==> q in ps;
      InsertApart(init, p);
      InsertSame(init, p);
      var r := Insert(init, p);
      forall i | 0 <= i < |r| ensures !SamePair(r[i], last) {
        assert r[i] in multiset(r);
        if r[i] != p {
          assert r[i] in init;
          var k :| 0 <= k < |init| && init[k] == r[i];
          assert ps[k] == r[i];
        }
      }
    } else {
      forall i | 0 <= i < |ps| ensures !SamePair(ps[i], p) { assert ps[i] in ps; }
    }
  }

  // How many lanes of an hour are a pair's own.
  function OwnLanes(ps: seq<Piece>, lanes: nat): nat
    requires lanes >= 1
  {
    if |PairSums(ps)| > lanes then lanes - 1 else |PairSums(ps)|
  }

  // Each pair of the hour has at most one lane, with its sums. If there are more pairs than lanes, the
  // last lane is the client other's, with no model, and the pairs without one are not larger than
  // those with one; otherwise every pair has its lane.
  lemma HourHolds(ps: seq<Piece>, lanes: nat, other: nat)
    requires lanes >= 1
    ensures var h, n := Hour(ps, lanes, other), OwnLanes(ps, lanes);
      && n <= |h| <= lanes && Apart(h[..n]) && (forall i :: 0 <= i < n ==> IsSum(h[i], ps))
      && (|PairSums(ps)| <= lanes ==> |h| == n && forall x :: x in ps ==> exists q :: q in h && SamePair(q, x))
      && (|PairSums(ps)| > lanes ==>
            && |h| == lanes && n == lanes - 1 && h[n].client == other && h[n].model == 0
            && forall x, i :: x in ps && 0 <= i < n && (forall j :: 0 <= j < n ==> !SamePair(h[j], x)) ==>
                 h[i].wh >= TotalWh(OfPair(ps, x.client, x.model)))
  {
    hide PairSums, StoreAll, IsSum, Largest, OfPair, TotalWh, TotalBusy, TotalTokens;
    StoredSums(ps);
    var st := StoreAll(PairSums(ps));
    if |st| <= lanes {
      assert st[..|st|] == st;
    } else {
      LargestKeeps(st);
      LargestApart(st);
      var s, n := Largest(st), lanes - 1;
      var h := Hour(ps, lanes, other);
      assert h[..n] == s[..n];
      forall i | 0 <= i < n ensures IsSum(h[i], ps) { assert s[i] in s; }
      forall x, i | x in ps && 0 <= i < n && (forall j :: 0 <= j < n ==> !SamePair(h[j], x))
        ensures h[i].wh >= TotalWh(OfPair(ps, x.client, x.model))
      {
        var q :| q in st && SamePair(q, x);
        assert q in s;
        var k :| 0 <= k < |s| && s[k] == q;
        assert forall j :: 0 <= j < n ==> h[j] == s[j];
        SumWh(q, ps);
      }
    }
  }

  lemma SumWh(q: Piece, ps: seq<Piece>)
    requires IsSum(q, ps)
    ensures q.wh == TotalWh(OfPair(ps, q.client, q.model))
  {
  }

  // The fit of the pairs' sums, from the pieces themselves.
  lemma PairsFit(ps: seq<Piece>)
    ensures BusyFits(PairSums(ps)) <==> forall x :: x in ps ==> TotalBusy(OfPair(ps, x.client, x.model)) <= MAX_UINT32
    ensures TokensFit(PairSums(ps)) <==> forall x :: x in ps ==> TotalTokens(OfPair(ps, x.client, x.model)) <= MAX_UINT32
  {
    hide PairSums, OfPair, TotalWh, TotalBusy, TotalTokens;
    var pairs := PairSums(ps);
    forall x | x in ps ensures PairAt(pairs, x.client, x.model) >= 0 {
      PairSumsExact(ps, x.client, x.model);
      InPair(ps, x);
    }
    forall x | x in ps
      ensures BusyFits(pairs) ==> TotalBusy(OfPair(ps, x.client, x.model)) <= MAX_UINT32
      ensures TokensFit(pairs) ==> TotalTokens(OfPair(ps, x.client, x.model)) <= MAX_UINT32
    {
      PairSumsExact(ps, x.client, x.model);
    }
    forall i | 0 <= i < |pairs| ensures exists x :: x in ps && SamePair(x, pairs[i])
      ensures pairs[i].busy == TotalBusy(OfPair(ps, pairs[i].client, pairs[i].model))
      ensures pairs[i].tokens == TotalTokens(OfPair(ps, pairs[i].client, pairs[i].model))
    {
      PairFrom(ps, i);
    }
  }

  lemma PairFrom(ps: seq<Piece>, i: nat)
    requires i < |PairSums(ps)|
    ensures var p := PairSums(ps)[i];
      var of := OfPair(ps, p.client, p.model);
      && p.wh == TotalWh(of) && p.busy == TotalBusy(of) && p.tokens == TotalTokens(of)
      && exists x :: x in ps && SamePair(x, p)
  {
    hide PairSums, PairAt, TotalWh, TotalBusy, TotalTokens;
    var p := PairSums(ps)[i];
    PairSumsApart(ps);
    PairSumsExact(ps, p.client, p.model);
    if PairAt(PairSums(ps), p.client, p.model) < 0 { PairAtNone(PairSums(ps), p.client, p.model, i); }
    assert PairAt(PairSums(ps), p.client, p.model) == i;
    OfPairSome(ps, p.client, p.model);
  }

  lemma {:induction false} OfPairSome(ps: seq<Piece>, c: nat, m: nat)
    ensures OfPair(ps, c, m) != [] ==> exists x :: x in ps && x.client == c && x.model == m
  {
    if ps != [] {
      var init, p := ps[..|ps| - 1], ps[|ps| - 1];
      OfPairSome(init, c, m);
      assert p in ps && forall x :: x in init ==> x in ps;
    }
  }

  // An hour has all its minutes' energy; and all their busy time exactly if no pair's sum passes the
  // ceiling of its field, nor, if there are more pairs than lanes, what is left of it for the shared
  // lane; and the same for tokens.
  lemma HourTotals(ps: seq<Piece>, lanes: nat, other: nat)
    requires lanes >= 1
    ensures var h, n := Hour(ps, lanes, other), OwnLanes(ps, lanes);
      && n <= |h| && TotalWh(h) == TotalWh(ps)
      && (TotalBusy(h) == TotalBusy(ps) <==>
            && (forall x :: x in ps ==> TotalBusy(OfPair(ps, x.client, x.model)) <= MAX_UINT32)
            && (|PairSums(ps)| > lanes ==> TotalBusy(ps) - TotalBusy(h[..n]) <= MAX_UINT32))
      && (TotalTokens(h) == TotalTokens(ps) <==>
            && (forall x :: x in ps ==> TotalTokens(OfPair(ps, x.client, x.model)) <= MAX_UINT32)
            && (|PairSums(ps)| > lanes ==> TotalTokens(ps) - TotalTokens(h[..n]) <= MAX_UINT32))
  {
    hide PairSums, StoreAll, Largest, OfPair, TotalWh, TotalBusy, TotalTokens, BusyFits, TokensFit;
    var pairs, h, n := PairSums(ps), Hour(ps, lanes, other), OwnLanes(ps, lanes);
    var st := StoreAll(pairs);
    StoredLength(pairs);
    HourKeeps(ps, lanes, other);
    PairsFit(ps);
    PairSumsTotals(ps);
    StoreTotals(pairs);
    if |pairs| > lanes {
      LargestKeeps(st);
      LargestTotals(st);
      var s := Largest(st);
      TotalsConcat(s[..n], s[n..]);
      assert s[..n] + s[n..] == s && h[..n] == s[..n];
    } else {
      NothingTotals();
    }
  }

  method RollUpHour(minutes: seq<Piece>, lanes: nat, other: nat) returns (r: seq<Piece>)
    requires lanes >= 1
    ensures r == Hour(minutes, lanes, other)
  {
    hide AddPiece, Folded;
    var sums: seq<Piece> := [];
    for i := 0 to |minutes|
      invariant sums == PairSums(minutes[..i])
    {
      assert minutes[..i + 1][..i] == minutes[..i];
      sums := AddPiece(sums, minutes[i]);
    }
    assert minutes[..|minutes|] == minutes;
    var recs: seq<Piece> := [];
    for i := 0 to |sums|
      invariant recs == StoreAll(sums[..i])
    {
      assert sums[..i + 1][..i] == sums[..i];
      recs := recs + [Stored(sums[i])];
    }
    assert sums[..|sums|] == sums;
    r := Fold(recs, lanes, other);
  }
}

/** Slot time by minute: how much of a request falls into each minute, and what requests add up to. */
module SlotTime {

  // Times are nanoseconds since 1970.
  const MINUTE: nat := 60_000_000_000

  function BucketOf(t: nat): nat {
    t / MINUTE
  }

  // How much of [start, end) lies in the minute b.
  function Overlap(start: nat, end: nat, b: int): nat {
    var lo := if start > b * MINUTE then start else b * MINUTE;
    var hi := if end < b * MINUTE + MINUTE then end else b * MINUTE + MINUTE;
    if hi > lo then hi - lo else 0
  }

  lemma OverlapOutside(start: nat, end: nat, b: int)
    requires b < BucketOf(start) || b > BucketOf(end)
    ensures Overlap(start, end, b) == 0
  {
    if b < BucketOf(start) {
      assert b * MINUTE + MINUTE <= BucketOf(start) * MINUTE <= start;
    } else {
      assert end < BucketOf(end) * MINUTE + MINUTE <= b * MINUTE;
    }
  }

  // What is open now can only grow, and a minute that is over no more.
  lemma OverlapGrows(start: nat, now: nat, end: nat, b: int)
    requires now <= end
    ensures Overlap(start, now, b) <= Overlap(start, end, b)
    ensures b * MINUTE + MINUTE <= now ==> Overlap(start, now, b) == Overlap(start, end, b)
  {
  }

  function Minutes(start: nat, end: nat, first: int, last: int): nat
    decreases last - first
  {
    if last < first then 0 else Minutes(start, end, first, last - 1) + Overlap(start, end, last)
  }

  lemma {:induction false} MinutesUpto(start: nat, end: nat, last: int)
    requires start <= end && BucketOf(start) <= last + 1
    ensures var cut := last * MINUTE + MINUTE;
      Minutes(start, end, BucketOf(start), last) ==
        if cut <= start then 0 else if end < cut then end - start else cut - start
    decreases last - BucketOf(start) + 1
  {
    var f := BucketOf(start);
    assert f * MINUTE <= start < f * MINUTE + MINUTE;
    if last >= f {
      MinutesUpto(start, end, last - 1);
      assert (last - 1) * MINUTE + MINUTE == last * MINUTE;
      assert f * MINUTE <= last * MINUTE;
      if last > f { assert f * MINUTE + MINUTE <= last * MINUTE; }
    } else {
      assert last == f - 1 && last * MINUTE + MINUTE == f * MINUTE;
    }
  }

  // A request's minutes add up to the time it held its slot.
  lemma MinutesAddUp(start: nat, end: nat)
    requires start <= end
    ensures Minutes(start, end, BucketOf(start), BucketOf(end)) == end - start
  {
    var l := BucketOf(end);
    assert start / MINUTE <= end / MINUTE;
    MinutesUpto(start, end, l);
    assert end < l * MINUTE + MINUTE;
  }

  // ---- Requests ----

  datatype Key = Key(client: string, model: string)

  // A request that held a slot. Once ended, it was charged for its minutes from the minute from.
  datatype Req = Req(key: Key, start: nat, ended: bool, end: nat, from: int, tokens: int)

  function Busy(r: Req, b: int): nat {
    if r.ended && r.from <= b then Overlap(r.start, r.end, b) else 0
  }

  function Tokens(r: Req, b: int): int {
    if r.ended && r.from <= b && BucketOf(r.end) == b then r.tokens else 0
  }

  // What the ended requests of a key add up to in a minute.
  function BusyOf(rs: seq<Req>, b: int, k: Key): nat {
    if rs == [] then 0
    else BusyOf(rs[..|rs| - 1], b, k) + if rs[|rs| - 1].key == k then Busy(rs[|rs| - 1], b) else 0
  }

  function TokensOf(rs: seq<Req>, b: int, k: Key): int {
    if rs == [] then 0
    else TokensOf(rs[..|rs| - 1], b, k) + if rs[|rs| - 1].key == k then Tokens(rs[|rs| - 1], b) else 0
  }

  // What the open requests with numbers in ids add up to, were they to end now. The number of a
  // request is its place plus one.
  function OpenOf(rs: seq<Req>, ids: set<nat>, b: int, k: Key, now: nat): nat {
    if rs == [] then 0
    else
      var r := rs[|rs| - 1];
      OpenOf(rs[..|rs| - 1], ids, b, k, now) +
      if |rs| in ids && r.key == k then Overlap(r.start, now, b) else 0
  }

  lemma {:induction false} BusyUpdate(rs: seq<Req>, i: nat, r: Req, b: int, k: Key)
    requires i < |rs| && r.key == rs[i].key
    ensures BusyOf(rs[i := r], b, k) == BusyOf(rs, b, k) + if r.key == k then Busy(r, b) - Busy(rs[i], b) else 0
    ensures TokensOf(rs[i := r], b, k) == TokensOf(rs, b, k) + if r.key == k then Tokens(r, b) - Tokens(rs[i], b) else 0
  {
    hide Busy, Tokens;
    var init := rs[..|rs| - 1];
    if i == |rs| - 1 {
      assert rs[i := r][..|rs| - 1] == init;
    } else {
      BusyUpdate(init, i, r, b, k);
      assert rs[i := r][..|rs| - 1] == init[i := r];
    }
  }

  lemma {:induction false} OpenLess(rs: seq<Req>, ids: set<nat>, id: nat, b: int, k: Key, now: nat)
    requires id in ids && 1 <= id <= |rs|
    ensures OpenOf(rs, ids, b, k, now) ==
      OpenOf(rs, ids - {id}, b, k, now) + if rs[id - 1].key == k then Overlap(rs[id - 1].start, now, b) else 0
  {
    hide Overlap;
    var init := rs[..|rs| - 1];
    if id < |rs| {
      OpenLess(init, ids, id, b, k, now);
    } else {
      OpenNot(init, ids, id, b, k, now);
    }
  }

  lemma {:induction false} OpenNot(rs: seq<Req>, ids: set<nat>, id: nat, b: int, k: Key, now: nat)
    requires id > |rs|
    ensures OpenOf(rs, ids, b, k, now) == OpenOf(rs, ids - {id}, b, k, now)
  {
    hide Overlap;
    if rs != [] { OpenNot(rs[..|rs| - 1], ids, id, b, k, now); }
  }

  lemma {:induction false} OpenNone(rs: seq<Req>, b: int, k: Key, now: nat)
    ensures OpenOf(rs, {}, b, k, now) == 0
  {
    if rs != [] { OpenNone(rs[..|rs| - 1], b, k, now); }
  }

  // ---- The time a key truly held slots in a minute ----

  // When the request ended, or will end at the earliest.
  function EndBy(r: Req, now: nat): nat {
    if r.ended then r.end else now
  }

  function Held(rs: seq<Req>, b: int, k: Key, now: nat): nat {
    if rs == [] then 0
    else
      var r := rs[|rs| - 1];
      Held(rs[..|rs| - 1], b, k, now) + if r.key == k then Overlap(r.start, EndBy(r, now), b) else 0
  }

  predicate ReqOk(r: Req, taken: int, clock: nat) {
    && r.start <= clock
    && (r.ended ==> r.start <= r.end <= clock && (r.from <= taken + 1 || r.from == BucketOf(r.start)))
  }

  // The numbers of the open requests.
  ghost predicate OpenIds(rs: seq<Req>, ids: set<nat>) {
    forall id :: id in ids <==> 1 <= id <= |rs| && !rs[id - 1].ended
  }

  // Of a minute not yet taken, what was charged and what is open make up exactly what was held.
  lemma {:induction false} ChargedIsHeld(rs: seq<Req>, ids: set<nat>, taken: int, clock: nat, b: int, k: Key, now: nat)
    requires b > taken && forall i :: 0 <= i < |rs| ==> ReqOk(rs[i], taken, clock)
    requires forall id :: 1 <= id <= |rs| ==> (id in ids <==> !rs[id - 1].ended)
    ensures BusyOf(rs, b, k) + OpenOf(rs, ids, b, k, now) == Held(rs, b, k, now)
  {
    hide Overlap;
    if rs != [] {
      var init, r := rs[..|rs| - 1], rs[|rs| - 1];
      forall id | 1 <= id <= |init| ensures id in ids <==> !init[id - 1].ended { assert init[id - 1] == rs[id - 1]; }
      ChargedIsHeld(init, ids, taken, clock, b, k, now);
      assert |rs| in ids <==> !r.ended;
      if r.ended && r.from > b { OverlapOutside(r.start, r.end, b); }
    }
  }

  // The request r as it stands at a later time.
  predicate Continues(r: Req, l: Req, now: nat, then_: nat) {
    && l.key == r.key && l.start == r.start
    && (if r.ended then l.ended && l.end == r.end else EndBy(l, then_) >= now)
  }

  // A minute that is over was held as long as it ever will be.
  lemma {:induction false} HeldFinal(rs: seq<Req>, later: seq<Req>, b: int, k: Key, now: nat, then_: nat)
    requires |rs| == |later| && now <= then_ && b * MINUTE + MINUTE <= now
    requires forall i :: 0 <= i < |rs| ==> Continues(rs[i], later[i], now, then_)
    ensures Held(rs, b, k, now) == Held(later, b, k, then_)
  {
    hide Overlap;
    if rs != [] {
      var r, l := rs[|rs| - 1], later[|later| - 1];
      HeldFinal(rs[..|rs| - 1], later[..|later| - 1], b, k, now, then_);
      if !r.ended { OverlapGrows(r.start, now, EndBy(l, then_), b); }
    }
  }

  // ---- All minutes together ----

  function HeldOver(rs: seq<Req>, k: Key, now: nat, first: int, last: int): nat
    decreases last - first
  {
    if last < first then 0 else HeldOver(rs, k, now, first, last - 1) + Held(rs, last, k, now)
  }

  // How long the requests of a key held their slots.
  function Durations(rs: seq<Req>, k: Key, now: nat): int {
    if rs == [] then 0
    else
      var r := rs[|rs| - 1];
      Durations(rs[..|rs| - 1], k, now) + if r.key == k then EndBy(r, now) - r.start else 0
  }

  lemma {:induction false} HeldOverPush(rs: seq<Req>, r: Req, k: Key, now: nat, first: int, last: int)
    ensures HeldOver(rs + [r], k, now, first, last) == HeldOver(rs, k, now, first, last) +
      if r.key == k then Minutes(r.start, EndBy(r, now), first, last) else 0
    decreases last - first
  {
    hide Overlap, EndBy;
    if last >= first {
      HeldOverPush(rs, r, k, now, first, last - 1);
      assert (rs + [r])[..|rs|] == rs;
    }
  }

  lemma {:induction false} MinutesCover(start: nat, end: nat, first: int, last: int)
    requires start <= end && first <= BucketOf(start) && BucketOf(end) <= last
    ensures Minutes(start, end, first, last) == end - start
    decreases last - first
  {
    if last > BucketOf(end) {
      OverlapOutside(start, end, last);
      assert BucketOf(start) <= BucketOf(end);
      MinutesCover(start, end, first, last - 1);
    } else {
      MinutesFrom(start, end, first, last);
      MinutesAddUp(start, end);
    }
  }

  lemma {:induction false} MinutesFrom(start: nat, end: nat, first: int, last: int)
    requires first <= BucketOf(start) <= last + 1
    ensures Minutes(start, end, first, last) == Minutes(start, end, BucketOf(start), last)
    decreases last - first
  {
    if last >= BucketOf(start) {
      MinutesFrom(start, end, first, last - 1);
    } else {
      NoMinutes(start, end, first, last);
    }
  }

  lemma {:induction false} NoMinutes(start: nat, end: nat, first: int, last: int)
    requires last < BucketOf(start)
    ensures Minutes(start, end, first, last) == 0
    decreases last - first
  {
    if last >= first {
      NoMinutes(start, end, first, last - 1);
      OverlapOutside(start, end, last);
    }
  }

  // Minutes that cover all its requests come, together, to the slot time of a key: none is lost
  // and none is counted twice.
  lemma {:induction false} HeldAddsUp(rs: seq<Req>, k: Key, now: nat, first: int, last: int)
    requires forall i :: 0 <= i < |rs| ==>
      rs[i].start <= EndBy(rs[i], now) && first <= BucketOf(rs[i].start) && BucketOf(EndBy(rs[i], now)) <= last
    ensures HeldOver(rs, k, now, first, last) == Durations(rs, k, now)
  {
    hide EndBy, BucketOf;
    if rs == [] {
      NoneHeld(k, now, first, last);
    } else {
      var init, r := rs[..|rs| - 1], rs[|rs| - 1];
      HeldAddsUp(init, k, now, first, last);
      assert rs == init + [r];
      HeldOverPush(init, r, k, now, first, last);
      MinutesCover(r.start, EndBy(r, now), first, last);
    }
  }

  lemma {:induction false} NoneHeld(k: Key, now: nat, first: int, last: int)
    ensures HeldOver([], k, now, first, last) == 0
    decreases last - first
  {
    if last >= first { NoneHeld(k, now, first, last - 1); }
  }

  // ---- Tokens ----

  function TokensOver(rs: seq<Req>, k: Key, first: int, last: int): int
    decreases last - first
  {
    if last < first then 0 else TokensOver(rs, k, first, last - 1) + TokensOf(rs, last, k)
  }

  // The tokens of the ended requests of a key that were still to be charged for their last minute,
  // in the minutes from first to last.
  function TokensEnded(rs: seq<Req>, k: Key, first: int, last: int): int {
    if rs == [] then 0
    else
      var r := rs[|rs| - 1];
      var minute := r.end / 60_000_000_000;
      TokensEnded(rs[..|rs| - 1], k, first, last) +
      if r.key == k && r.ended && r.from <= minute && first <= minute <= last then r.tokens else 0
  }

  lemma {:induction false} TokensOverPush(rs: seq<Req>, r: Req, k: Key, first: int, last: int)
    ensures TokensOver(rs + [r], k, first, last) == TokensOver(rs, k, first, last) +
      if r.key == k && first <= BucketOf(r.end) <= last then Tokens(r, BucketOf(r.end)) else 0
    decreases last - first
  {
    hide BucketOf;
    if last >= first {
      TokensOverPush(rs, r, k, first, last - 1);
      assert (rs + [r])[..|rs|] == rs;
    }
  }

  // A key's tokens over minutes are those of its ended requests, each once and in its last minute.
  lemma {:induction false} TokensAddUp(rs: seq<Req>, k: Key, first: int, last: int)
    ensures TokensOver(rs, k, first, last) == TokensEnded(rs, k, first, last)
  {
    if rs == [] {
      NoTokens(k, first, last);
    } else {
      var init, r := rs[..|rs| - 1], rs[|rs| - 1];
      TokensAddUp(init, k, first, last);
      assert rs == init + [r];
      TokensOverPush(init, r, k, first, last);
    }
  }

  lemma {:induction false} NoTokens(k: Key, first: int, last: int)
    ensures TokensOver([], k, first, last) == 0
    decreases last - first
  {
    if last >= first { NoTokens(k, first, last - 1); }
  }

  // ---- A span of time ----

  // How much of [start, end) lies in [lo, hi).
  function Within(start: int, end: int, lo: int, hi: int): nat {
    var a, b := if start < lo then lo else start, if end < hi then end else hi;
    if a < b then b - a else 0
  }

  // How long the requests of a key held their slots from lo until hi.
  function HeldIn(rs: seq<Req>, k: Key, now: nat, lo: int, hi: int): nat {
    if rs == [] then 0
    else
      var r := rs[|rs| - 1];
      HeldIn(rs[..|rs| - 1], k, now, lo, hi) + if r.key == k then Within(r.start, if r.ended then r.end else now, lo, hi) else 0
  }

  // The minute b is the sixty seconds from 60 * b on.
  lemma {:induction false} HeldIsIn(rs: seq<Req>, b: int, k: Key, now: nat)
    ensures Held(rs, b, k, now) == HeldIn(rs, k, now, b * 60 * 1_000_000_000, (b * 60 + 60) * 1_000_000_000)
  {
    if rs != [] { HeldIsIn(rs[..|rs| - 1], b, k, now); }
  }
}

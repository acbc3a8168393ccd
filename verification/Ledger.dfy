/** The ledger of slot time: what each client held of each model, handed out minute by minute. */
module Ledger {
  import opened SlotTime
  import opened TextOrder

  // A finished minute not taken by then is dropped.
  const KEEP_MINUTES: int := 3
  const MIN_INT64: int := -0x8000_0000_0000_0000
  const OTHER: string := "other"

  datatype Usage = Usage(busy: nat, tokens: int)

  datatype OpenUse = OpenUse(key: Key, start: nat)

  type Book = map<Key, Usage>

  function UsageAt(m: Book, k: Key): Usage {
    if k in m then m[k] else Usage(0, 0)
  }

  function AddUse(m: Book, k: Key, busy: nat, tokens: int): Book {
    m[k := Usage(UsageAt(m, k).busy + busy, UsageAt(m, k).tokens + tokens)]
  }

  function BookAt(done: map<int, Book>, b: int): Book {
    if b in done then done[b] else map[]
  }

  // The book of a minute is what the ended requests add up to in it.
  ghost predicate Tallies(m: Book, rs: seq<Req>, b: int) {
    forall k :: UsageAt(m, k) == Usage(BusyOf(rs, b, k), TokensOf(rs, b, k))
  }

  lemma TalliesBegun(m: Book, rs: seq<Req>, r: Req, b: int)
    requires Tallies(m, rs, b) && !r.ended
    ensures Tallies(m, rs + [r], b)
  {
    assert (rs + [r])[..|rs|] == rs;
  }

  // Ending a request adds what it is charged for to the book, and nothing else.
  lemma TalliesEnded(m: Book, rs: seq<Req>, i: nat, r: Req, b: int)
    requires Tallies(m, rs, b) && i < |rs| && !rs[i].ended && r.key == rs[i].key
    ensures Tallies(AddUse(m, r.key, Busy(r, b), Tokens(r, b)), rs[i := r], b)
    ensures Busy(r, b) == 0 && Tokens(r, b) == 0 ==> Tallies(m, rs[i := r], b)
  {
    forall k
      ensures UsageAt(AddUse(m, r.key, Busy(r, b), Tokens(r, b)), k) == Usage(BusyOf(rs[i := r], b, k), TokensOf(rs[i := r], b, k))
      ensures Busy(r, b) == 0 && Tokens(r, b) == 0 ==> UsageAt(m, k) == Usage(BusyOf(rs[i := r], b, k), TokensOf(rs[i := r], b, k))
    {
      BusyUpdate(rs, i, r, b, k);
    }
  }

  function Minute(seconds: int): int {
    if seconds >= 0 then seconds / 60 else -((-seconds) / 60)
  }

  // A whole number of seconds is in the minute its nanoseconds are in.
  lemma MinuteIs(seconds: nat)
    ensures Minute(seconds) == BucketOf(seconds * 1_000_000_000)
  {
  }

  lemma WholeMinute(seconds: int)
    requires seconds % 60 == 0
    ensures Minute(seconds) * 60 == seconds
  {
  }

  ghost predicate OpenOk(rs: seq<Req>, open: map<nat, OpenUse>, taken: int, clock: nat) {
    && OpenIds(rs, open.Keys)
    && (forall id :: id in open ==> 1 <= id <= |rs| && open[id] == OpenUse(rs[id - 1].key, rs[id - 1].start))
    && (forall i :: 0 <= i < |rs| ==> ReqOk(rs[i], taken, clock))
  }

  ghost predicate DoneOk(done: map<int, Book>, rs: seq<Req>, taken: int, dropped: int) {
    && (forall b :: b in done ==> b > taken && b > dropped)
    && (forall b :: b > taken && b > dropped ==> Tallies(BookAt(done, b), rs, b))
  }

  lemma LaterOpen(rs: seq<Req>, open: map<nat, OpenUse>, taken: int, clock: nat, taken': int, clock': nat)
    requires OpenOk(rs, open, taken, clock) && taken <= taken' && clock <= clock'
    ensures OpenOk(rs, open, taken', clock')
  {
  }

  lemma BegunOk(rs: seq<Req>, open: map<nat, OpenUse>, done: map<int, Book>, taken: int, dropped: int, clock: nat, r: Req)
    requires OpenOk(rs, open, taken, clock) && DoneOk(done, rs, taken, dropped) && !r.ended && r.start <= clock
    ensures OpenOk(rs + [r], open[|rs| + 1 := OpenUse(r.key, r.start)], taken, clock)
    ensures DoneOk(done, rs + [r], taken, dropped)
  {
    hide Tallies;
    forall b | b > taken && b > dropped ensures Tallies(BookAt(done, b), rs + [r], b) {
      TalliesBegun(BookAt(done, b), rs, r, b);
    }
  }

  lemma EndedOpen(rs: seq<Req>, open: map<nat, OpenUse>, taken: int, clock: nat, id: nat, r: Req)
    requires OpenOk(rs, open, taken, clock) && id in open && r.ended && ReqOk(r, taken, clock)
    ensures OpenOk(rs[id - 1 := r], open - {id}, taken, clock)
  {
  }

  // The book of a minute after the request r ended.
  function EndedBook(m: Book, r: Req, b: int): Book {
    if !(r.from <= b <= BucketOf(r.end)) then m
    else
      var charged := AddUse(m, r.key, Overlap(r.start, r.end, b), 0);
      if b == BucketOf(r.end) then AddUse(charged, r.key, 0, r.tokens) else charged
  }

  lemma EndedTallies(m: Book, rs: seq<Req>, i: nat, r: Req, b: int)
    requires Tallies(m, rs, b) && i < |rs| && !rs[i].ended && r.key == rs[i].key && r.ended
    ensures Tallies(EndedBook(m, r, b), rs[i := r], b)
  {
    hide Tallies, Overlap, AddUse;
    TalliesEnded(m, rs, i, r, b);
    if r.from <= b <= BucketOf(r.end) {
      AddTwice(m, r.key, Overlap(r.start, r.end, b), r.tokens);
    } else if b > BucketOf(r.end) {
      OverlapOutside(r.start, r.end, b);
    }
  }

  lemma AddTwice(m: Book, k: Key, busy: nat, tokens: int)
    ensures AddUse(AddUse(m, k, busy, 0), k, 0, tokens) == AddUse(m, k, busy, tokens)
  {
  }

  // The books after a request ended: its minutes charged, those up to cut dropped.
  ghost predicate BooksAfter(done: map<int, Book>, r: Req, cut: int, done': map<int, Book>) {
    && (forall b :: b in done' ==> b > cut && (b in done || r.from <= b))
    && (forall b :: b > cut ==> BookAt(done', b) == EndedBook(BookAt(done, b), r, b))
  }

  lemma EndedDone(done: map<int, Book>, rs: seq<Req>, taken: int, dropped: int, i: nat, r: Req, cut: int, done': map<int, Book>)
    requires DoneOk(done, rs, taken, dropped) && i < |rs| && !rs[i].ended && r.key == rs[i].key && r.ended
    requires BooksAfter(done, r, cut, done') && cut >= dropped && r.from > taken
    ensures DoneOk(done', rs[i := r], taken, cut)
  {
    hide Tallies, EndedBook;
    forall b | b > taken && b > cut ensures Tallies(BookAt(done', b), rs[i := r], b) {
      EndedTallies(BookAt(done, b), rs, i, r, b);
    }
  }

  lemma TakenDone(done: map<int, Book>, rs: seq<Req>, taken: int, dropped: int, b: int, done': map<int, Book>)
    requires DoneOk(done, rs, taken, dropped) && b > taken
    requires (forall c :: c in done' <==> c in done && c > b) && (forall c :: c in done' ==> done'[c] == done[c])
    ensures DoneOk(done', rs, b, dropped)
  {
    hide Tallies;
    forall c | c > b && c > dropped ensures Tallies(BookAt(done', c), rs, c) {
      assert BookAt(done', c) == BookAt(done, c);
    }
  }

  class Ledger {
    var active: bool
    var nextId: nat
    var open: map<nat, OpenUse>
    var done: map<int, Book>
    var taken: int
    // Every request so far, the latest time seen, the minutes dropped and the minutes handed out.
    ghost var reqs: seq<Req>
    ghost var clock: nat
    ghost var dropped: int
    ghost var handed: seq<int>

    // No minute is handed out twice.
    ghost predicate HandedOk()
      reads this
    {
      && (forall i, j :: 0 <= i < j < |handed| ==> handed[i] < handed[j])
      && (forall i :: 0 <= i < |handed| ==> handed[i] <= taken)
    }

    ghost predicate Valid()
      reads this
    {
      && nextId == |reqs| && OpenOk(reqs, open, taken, clock) && DoneOk(done, reqs, taken, dropped) && HandedOk()
      && dropped <= BucketOf(clock) - KEEP_MINUTES
    }

    constructor ()
      ensures Valid() && !active && reqs == [] && handed == []
    {
      active, nextId, open, done, taken := false, 0, map[], map[], MIN_INT64;
      reqs, clock, dropped, handed := [], 0, MIN_INT64, [];
    }

    // A slot was leased. Number 0 is a request that is not counted.
    method Begin(client: string, model: string, now: nat) returns (id: nat)
      requires Valid() && clock <= now
      modifies this
      ensures Valid() && clock == now && taken == old(taken) && dropped == old(dropped) && handed == old(handed)
      ensures client == "" && !old(active) ==> id == 0 && reqs == old(reqs) && !active
      ensures client != "" || old(active) ==>
        && id == |reqs| && active
        && reqs == old(reqs) + [Req(Key(if client == "" then OTHER else client, model), now, false, 0, 0, 0)]
      ensures Follows(Log(old(reqs), old(clock)), Log(reqs, clock))
    {
      hide OpenOk, DoneOk, BucketOf;
      BucketUp(clock, now);
      LaterOpen(reqs, open, taken, clock, taken, now);
      clock := now;
      if client == "" && !active {
        return 0;
      }
      active := true;
      var key := Key(if client == "" then OTHER else client, model);
      ghost var r := Req(key, now, false, 0, 0, 0);
      BegunOk(reqs, open, done, taken, dropped, now, r);
      nextId := nextId + 1;
      id := nextId;
      open := open[id := OpenUse(key, now)];
      reqs := reqs + [r];
    }

    // The part of each minute from the first to the last, charged to the key.
    method ChargeMinutes(o: OpenUse, end: nat, first: int, last: int)
      modifies this`done
      ensures forall b :: BookAt(done, b) == if first <= b <= last then
        AddUse(BookAt(old(done), b), o.key, Overlap(o.start, end, b), 0) else BookAt(old(done), b)
      ensures forall b :: b in done <==> b in old(done) || first <= b <= last
    {
      hide AddUse, Overlap;
      var b := first;
      while b <= last
        invariant first <= last ==> first <= b <= last + 1
        invariant first > last ==> b == first
        invariant forall c :: BookAt(done, c) == if first <= c < b then
          AddUse(BookAt(old(done), c), o.key, Overlap(o.start, end, c), 0) else BookAt(old(done), c)
        invariant forall c :: c in done <==> c in old(done) || first <= c < b
        decreases last - b
      {
        ghost var was := done;
        done := done[b := AddUse(BookAt(done, b), o.key, Overlap(o.start, end, b), 0)];
        assert forall c :: c != b ==> BookAt(done, c) == BookAt(was, c);
        b := b + 1;
      }
    }

    // Drops the minutes up to cut.
    method Prune(cut: int)
      modifies this`done
      ensures forall b :: b in done <==> b in old(done) && b > cut
      ensures forall b :: b in done ==> done[b] == old(done)[b]
    {
      done := map b | b in done && b > cut :: done[b];
    }

    // A request ends: its slot time is booked from the first minute that is still to be handed
    // out, its tokens under the last minute.
    method End(id: nat, tokens: int, now: nat)
      requires Valid() && clock <= now
      modifies this
      ensures Valid() && clock == now && taken == old(taken) && handed == old(handed) && active == old(active)
      ensures id !in old(open) ==> reqs == old(reqs) && dropped == old(dropped)
      ensures id in old(open) ==>
        && 1 <= id <= |old(reqs)|
        && var r := old(reqs)[id - 1];
        && reqs == old(reqs)[id - 1 := r.(ended := true, end := now, tokens := tokens, from := Later(BucketOf(r.start), taken))]
        && dropped == BucketOf(now) - 3
      ensures Follows(Log(old(reqs), old(clock)), Log(reqs, clock))
    {
      hide OpenOk, DoneOk, BucketOf, BooksAfter, EndedBook;
      BucketUp(clock, now);
      LaterOpen(reqs, open, taken, clock, taken, now);
      clock := now;
      if id !in open {
        return;
      }
      OpenIs(reqs, open, taken, now, id);
      var o := open[id];
      ghost var r := reqs[id - 1].(ended := true, end := now, tokens := tokens, from := Later(BucketOf(o.start), taken));
      EndedOpen(reqs, open, taken, now, id, r);
      open := open - {id};
      ghost var books := done;
      ChargeAndPrune(o, tokens, now, r);
      EndedDone(books, reqs, taken, dropped, id - 1, r, BucketOf(now) - KEEP_MINUTES, done);
      reqs := reqs[id - 1 := r];
      dropped := BucketOf(now) - KEEP_MINUTES;
    }

    method ChargeAndPrune(o: OpenUse, tokens: int, now: nat, ghost r: Req)
      requires o.start <= now && r.key == o.key && r.start == o.start && r.ended && r.end == now && r.tokens == tokens
      requires r.from == Later(BucketOf(o.start), taken)
      modifies this`done
      ensures BooksAfter(old(done), r, BucketOf(now) - KEEP_MINUTES, done)
    {
      hide AddUse, Overlap, BucketOf;
      var first, last := BucketOf(o.start), BucketOf(now);
      BucketUp(o.start, now);
      if first <= taken { first := taken + 1; }
      ChargeMinutes(o, now, first, last);
      if last > taken {
        done := done[last := AddUse(BookAt(done, last), o.key, 0, tokens)];
      }
      ghost var full := done;
      Prune(last - KEEP_MINUTES);
      assert forall b :: b > last - KEEP_MINUTES ==> BookAt(done, b) == BookAt(full, b);
    }

    // A minute is given out and its book closed. Open requests count with what they have of it so
    // far; if none of its books was dropped, that is all that was held.
    method Take(bucketStart: int, now: nat) returns (lines: seq<Line>, ghost sum: Book)
      requires Valid() && clock <= now
      modifies this
      ensures Valid() && clock == now && reqs == old(reqs) && dropped == old(dropped) && active == old(active)
      ensures Lists(lines, sum)
      ensures Minute(bucketStart) <= old(taken) ==> lines == [] && taken == old(taken) && handed == old(handed)
      ensures Minute(bucketStart) > old(taken) ==>
        && taken == Minute(bucketStart) && handed == old(handed) + [taken]
        && forall k :: HandsOut(sum, reqs, taken, k, now, dropped)
      ensures bucketStart % 60 == 0 && bucketStart <= 60 * old(taken) ==> lines == []
      ensures bucketStart % 60 == 0 && bucketStart > 60 * old(taken) ==>
        60 * taken == bucketStart && forall k :: HandsOutSeconds(sum, reqs, bucketStart, k, now, dropped)
      ensures Follows(Log(old(reqs), old(clock)), Log(reqs, clock))
    {
      hide OpenOk, DoneOk, BucketOf, HandsOut, HandsOutSeconds, Minute;
      BucketUp(clock, now);
      LaterOpen(reqs, open, taken, clock, taken, now);
      clock := now;
      var b := Minute(bucketStart);
      if b <= taken {
        if bucketStart % 60 == 0 { WholeMinute(bucketStart); }
        return [], map[];
      }
      var all := SumUp(b, now);
      sum := all;
      forall k ensures HandsOut(sum, reqs, b, k, now, dropped) {
        SumHandsOut(sum, reqs, open, done, taken, dropped, b, k, now);
      }
      ghost var books := done;
      Prune(b);
      TakenDone(books, reqs, taken, dropped, b, done);
      LaterOpen(reqs, open, taken, now, b, now);
      taken := b;
      handed := handed + [b];
      lines := LinesOf(all);
      if bucketStart % 60 == 0 {
        WholeMinute(bucketStart);
        forall k ensures HandsOutSeconds(sum, reqs, bucketStart, k, now, dropped) {
          InSeconds(sum, reqs, b, k, now, dropped);
        }
      }
    }

    method SumUp(b: int, now: nat) returns (sum: Book)
      requires OpenOk(reqs, open, taken, clock)
      ensures forall k :: UsageAt(sum, k) == Sum(BookAt(done, b), reqs, open.Keys, b, k, now)
    {
      hide Overlap, OpenOf, OpenIds, ReqOk;
      sum := BookAt(done, b);
      var left := open.Keys;
      while left != {}
        invariant left <= open.Keys
        invariant forall k :: Sum(sum, reqs, left, b, k, now) == Sum(BookAt(done, b), reqs, open.Keys, b, k, now)
        decreases left
      {
        var id :| id in left;
        var o := open[id];
        var d := Overlap(o.start, now, b);
        ghost var before, rest := sum, left - {id};
        if d > 0 { sum := AddUse(sum, o.key, d, 0); }
        forall k ensures Sum(sum, reqs, rest, b, k, now) == Sum(before, reqs, left, b, k, now) {
          OpenLess(reqs, left, id, b, k, now);
        }
        left := left - {id};
      }
      forall k ensures UsageAt(sum, k) == Sum(sum, reqs, {}, b, k, now) { OpenNone(reqs, b, k, now); }
    }
  }

  // ---- The list handed out ----

  datatype Line = Line(key: Key, use: Usage)

  // By client, then by model.
  predicate KeyLess(a: Key, b: Key) {
    Less(a.client, b.client) || (a.client == b.client && Less(a.model, b.model))
  }

  lemma KeyTotal(a: Key, b: Key)
    ensures a == b || KeyLess(a, b) || KeyLess(b, a)
  {
    LessTotal(a.client, b.client);
    LessTotal(a.model, b.model);
  }

  lemma KeyTransitive(a: Key, b: Key, c: Key)
    requires KeyLess(a, b) && KeyLess(b, c)
    ensures KeyLess(a, c)
  {
    if Less(a.client, b.client) && Less(b.client, c.client) {
      LessTransitive(a.client, b.client, c.client);
    } else if a.client == b.client == c.client {
      LessTransitive(a.model, b.model, c.model);
    }
  }

  predicate KeysUp(ls: seq<Line>) {
    forall i, j :: 0 <= i < j < |ls| ==> KeyLess(ls[i].key, ls[j].key)
  }

  lemma KeysUpAt(ls: seq<Line>, i: nat, j: nat)
    requires KeysUp(ls) && i < j < |ls|
    ensures var a, b := ls[i].key, ls[j].key; Less(a.client, b.client) || (a.client == b.client && Less(a.model, b.model))
  {
  }

  // Every entry of the book once, in the order of the keys.
  ghost predicate Lists(ls: seq<Line>, m: Book) {
    && KeysUp(ls)
    && (forall x :: x in ls ==> x.key in m && x.use == m[x.key])
    && (forall k :: k in m ==> Line(k, m[k]) in ls)
  }

  // A line goes before the first that is not less.
  method Insert(ls: seq<Line>, x: Line) returns (r: seq<Line>)
    requires KeysUp(ls) && forall y :: y in ls ==> y.key != x.key
    ensures KeysUp(r) && forall y :: y in r <==> y in ls || y == x
  {
    hide KeyLess;
    var p := 0;
    while p < |ls| && KeyLess(ls[p].key, x.key)
      invariant 0 <= p <= |ls| && forall i :: 0 <= i < p ==> KeyLess(ls[i].key, x.key)
    {
      p := p + 1;
    }
    forall i | p <= i < |ls| ensures KeyLess(x.key, ls[i].key) {
      assert ls[p] in ls;
      KeyTotal(ls[p].key, x.key);
      if i > p { KeyTransitive(x.key, ls[p].key, ls[i].key); }
    }
    r := ls[..p] + [x] + ls[p..];
    assert ls == ls[..p] + ls[p..];
  }

  method LinesOf(m: Book) returns (ls: seq<Line>)
    ensures Lists(ls, m)
    ensures forall i, j :: 0 <= i < j < |ls| ==>
      var a, b := ls[i].key, ls[j].key; Less(a.client, b.client) || (a.client == b.client && Less(a.model, b.model))
  {
    hide KeysUp;
    ls := [];
    NoLines();
    var left := m.Keys;
    while left != {}
      invariant left <= m.Keys && KeysUp(ls)
      invariant forall x :: x in ls <==> x.key in m && x.key !in left && x.use == m[x.key]
    {
      var k :| k in left;
      ls := Insert(ls, Line(k, m[k]));
      left := left - {k};
    }
    forall i, j | 0 <= i < j < |ls|
      ensures var a, b := ls[i].key, ls[j].key; Less(a.client, b.client) || (a.client == b.client && Less(a.model, b.model))
    {
      KeysUpAt(ls, i, j);
    }
  }

  lemma NoLines()
    ensures KeysUp([])
  {
  }

  // What a book and the open requests come to for a key.
  function Sum(m: Book, rs: seq<Req>, ids: set<nat>, b: int, k: Key, now: nat): Usage {
    Usage(UsageAt(m, k).busy + OpenOf(rs, ids, b, k, now), UsageAt(m, k).tokens)
  }

  // What was handed out for a key: never more than it held, and exactly that if the minute was kept.
  predicate HandsOut(sum: Book, rs: seq<Req>, b: int, k: Key, now: nat, dropped: int) {
    && UsageAt(sum, k).busy <= Held(rs, b, k, now)
    && (b > dropped ==> UsageAt(sum, k) == Usage(Held(rs, b, k, now), TokensOf(rs, b, k)))
  }

  // The same in seconds: what is handed out for a key is how long its requests held their slots in
  // the sixty seconds from start on.
  predicate HandsOutSeconds(sum: Book, rs: seq<Req>, start: int, k: Key, now: nat, dropped: int) {
    var held := HeldIn(rs, k, now, start * 1_000_000_000, (start + 60) * 1_000_000_000);
    UsageAt(sum, k).busy <= held && (start > 60 * dropped ==> UsageAt(sum, k).busy == held)
  }

  lemma InSeconds(sum: Book, rs: seq<Req>, b: int, k: Key, now: nat, dropped: int)
    requires HandsOut(sum, rs, b, k, now, dropped)
    ensures HandsOutSeconds(sum, rs, b * 60, k, now, dropped)
  {
    hide Held, HeldIn, TokensOf;
    HeldIsIn(rs, b, k, now);
  }

  lemma SumHandsOut(sum: Book, rs: seq<Req>, open: map<nat, OpenUse>, done: map<int, Book>, taken: int, dropped: int,
                    b: int, k: Key, now: nat)
    requires OpenOk(rs, open, taken, now) && DoneOk(done, rs, taken, dropped) && b > taken
    requires UsageAt(sum, k) == Sum(BookAt(done, b), rs, open.Keys, b, k, now)
    ensures HandsOut(sum, rs, b, k, now, dropped)
  {
    hide Tallies, Held, OpenOf, BusyOf, TokensOf;
    ChargedIsHeld(rs, open.Keys, taken, now, b, k, now);
    if b > dropped { TalliesAt(BookAt(done, b), rs, b, k); }
  }

  lemma OpenIs(rs: seq<Req>, open: map<nat, OpenUse>, taken: int, clock: nat, id: nat)
    requires OpenOk(rs, open, taken, clock) && id in open
    ensures 1 <= id <= |rs| && !rs[id - 1].ended && open[id] == OpenUse(rs[id - 1].key, rs[id - 1].start)
    ensures rs[id - 1].start <= clock
  {
  }

  function Later(first: int, taken: int): int {
    if first <= taken then taken + 1 else first
  }

  lemma BucketUp(a: nat, b: nat)
    requires a <= b
    ensures BucketOf(a) <= BucketOf(b)
  {
  }

  lemma TalliesAt(m: Book, rs: seq<Req>, b: int, k: Key)
    requires Tallies(m, rs, b)
    ensures UsageAt(m, k) == Usage(BusyOf(rs, b, k), TokensOf(rs, b, k))
  {
  }

  // ---- The requests over a run of calls ----

  datatype Log = Log(reqs: seq<Req>, clock: nat)

  // One call: nothing, one more request that begins now, or one that was open and ends now.
  predicate Follows(a: Log, b: Log) {
    a.clock <= b.clock && (b.reqs == a.reqs || Began(a.reqs, b.reqs, b.clock) || Ended(a.reqs, b.reqs, b.clock))
  }

  predicate Began(rs: seq<Req>, rs': seq<Req>, now: nat) {
    |rs'| == |rs| + 1 && rs'[..|rs|] == rs && !rs'[|rs|].ended && rs'[|rs|].start == now
  }

  predicate Ended(rs: seq<Req>, rs': seq<Req>, now: nat) {
    && |rs'| == |rs|
    && exists i :: 0 <= i < |rs| && !rs[i].ended && rs'[i] == rs[i].(ended := true, end := now, tokens := rs'[i].tokens, from := rs'[i].from)
                   && rs' == rs[i := rs'[i]]
  }

  predicate IsLog(ls: seq<Log>) {
    forall i :: 0 < i < |ls| ==> Follows(ls[i - 1], ls[i])
  }

  // The requests of a log are those of an earlier one going on, and newer ones.
  predicate GoesOn(a: Log, b: Log) {
    && a.clock <= b.clock && |a.reqs| <= |b.reqs|
    && (forall i :: 0 <= i < |a.reqs| ==> Continues(a.reqs[i], b.reqs[i], a.clock, b.clock))
    && (forall i :: |a.reqs| <= i < |b.reqs| ==> b.reqs[i].start >= a.clock && EndBy(b.reqs[i], b.clock) >= b.reqs[i].start)
  }

  lemma GoesOnStep(a: Log, b: Log, c: Log)
    requires GoesOn(a, b) && Follows(b, c)
    ensures GoesOn(a, c)
  {
    if c.reqs == b.reqs {
    } else if Began(b.reqs, c.reqs, c.clock) {
      assert forall i :: 0 <= i < |b.reqs| ==> c.reqs[i] == c.reqs[..|b.reqs|][i];
    } else {
      assert Ended(b.reqs, c.reqs, c.clock);
    }
  }

  lemma {:induction false} RunGoesOn(ls: seq<Log>, i: nat, j: nat)
    requires IsLog(ls) && i <= j < |ls|
    ensures GoesOn(ls[i], ls[j])
  {
    hide Follows;
    if i < j {
      RunGoesOn(ls, i, j - 1);
      assert Follows(ls[j - 1], ls[j]);
      GoesOnStep(ls[i], ls[j - 1], ls[j]);
    }
  }

  // What a minute handed out after it ended is worth stays so, whatever calls follow: requests
  // still open at the time held no more of it, and later ones none.
  lemma HandedIsFinal(sum: Book, ls: seq<Log>, i: nat, j: nat, b: int, k: Key)
    requires IsLog(ls) && i <= j < |ls| && b * MINUTE + MINUTE <= ls[i].clock
    requires HandsOut(sum, ls[i].reqs, b, k, ls[i].clock, b - 1)
    ensures UsageAt(sum, k).busy == Held(ls[j].reqs, b, k, ls[j].clock)
  {
    hide HandsOut, Held, Continues;
    RunGoesOn(ls, i, j);
    HandedStays(sum, ls[i].reqs, ls[j].reqs, b, k, ls[i].clock, ls[j].clock);
  }

  lemma HandedStays(sum: Book, rs: seq<Req>, later: seq<Req>, b: int, k: Key, now: nat, then_: nat)
    requires HandsOut(sum, rs, b, k, now, b - 1) && b * MINUTE + MINUTE <= now <= then_
    requires |rs| <= |later| && forall i :: 0 <= i < |rs| ==> Continues(rs[i], later[i], now, then_)
    requires forall i :: |rs| <= i < |later| ==> later[i].start >= now && EndBy(later[i], then_) >= later[i].start
    ensures UsageAt(sum, k).busy == Held(later, b, k, then_)
  {
    HeldFinal(rs, later[..|rs|], b, k, now, then_);
    HeldLater(later, |rs|, b, k, now, then_);
  }

  // Requests that began after the minute held none of it.
  lemma {:induction false} HeldLater(rs: seq<Req>, n: nat, b: int, k: Key, now: nat, then_: nat)
    requires n <= |rs| && b * MINUTE + MINUTE <= now && forall i :: n <= i < |rs| ==> rs[i].start >= now
    ensures Held(rs, b, k, then_) == Held(rs[..n], b, k, then_)
  {
    if n == |rs| {
      assert rs[..n] == rs;
    } else {
      HeldLater(rs[..|rs| - 1], n, b, k, now, then_);
      assert rs[..|rs| - 1][..n] == rs[..n];
    }
  }
}

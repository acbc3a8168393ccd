/** Histories of an alias: previous versions, newest first, at most MAX_HISTORY, and their union. */
module AliasHistory {
  import opened TextOrder

  const MAX_HISTORY: nat := 10

  datatype Version = Version(target: string, fallbacks: seq<string>, ts: int, writer: string)

  type History = seq<Version>

  predicate SameKey(v: Version, w: Version) {
    v.ts == w.ts && v.writer == w.writer
  }

  predicate Newer(v: Version, w: Version) {
    v.ts > w.ts || (v.ts == w.ts && Less(w.writer, v.writer))
  }

  lemma NewerTotal(v: Version, w: Version)
    ensures Newer(v, w) || Newer(w, v) || SameKey(v, w)
  {
    LessTotal(v.writer, w.writer);
  }

  lemma NewerAsymmetric(v: Version, w: Version)
    requires Newer(v, w)
    ensures !Newer(w, v) && !SameKey(v, w) && v != w
  {
    if v.ts == w.ts { LessAsymmetric(w.writer, v.writer); }
  }

  lemma NewerTransitive(u: Version, v: Version, w: Version)
    requires Newer(u, v) && Newer(v, w)
    ensures Newer(u, w)
  {
    if u.ts == v.ts == w.ts { LessTransitive(w.writer, v.writer, u.writer); }
  }

  function Cap(h: History): (r: History)
    ensures |r| <= MAX_HISTORY && r <= h
  {
    if |h| > MAX_HISTORY then h[..MAX_HISTORY] else h
  }

  predicate HasKey(h: History, v: Version) {
    exists w :: w in h && SameKey(v, w)
  }

  // The first of each (TS, By), in order.
  function Dedup(h: History): History {
    if h == [] then []
    else
      var d := Dedup(h[..|h| - 1]);
      if HasKey(d, h[|h| - 1]) then d else d + [h[|h| - 1]]
  }

  // v put into a newest-first list, after the versions it is not newer than.
  function Insert(h: History, v: Version): History {
    if h == [] || !Newer(v, h[|h| - 1]) then h + [v]
    else Insert(h[..|h| - 1], v) + [h[|h| - 1]]
  }

  function SortNewest(h: History): History {
    if h == [] then [] else Insert(SortNewest(h[..|h| - 1]), h[|h| - 1])
  }

  function UnionHistory(a: History, b: History): History {
    Cap(SortNewest(Dedup(a + b)))
  }

  // ---- The newest MAX_HISTORY of a set of versions ----

  predicate Descending(h: History) {
    forall i, j :: 0 <= i < j < |h| ==> Newer(h[i], h[j])
  }

  function Elems(h: History): set<Version> {
    set v | v in h
  }

  predicate Consistent(s: set<Version>) {
    forall v, w :: v in s && w in s && SameKey(v, w) ==> v == w
  }

  predicate Top(h: History, s: set<Version>) {
    && Descending(h) && |h| <= MAX_HISTORY && Elems(h) <= s
    && forall v :: v in s ==> v in h || (|h| == MAX_HISTORY && Newer(h[MAX_HISTORY - 1], v))
  }

  lemma {:induction false} TopUniqueAt(h: History, g: History, s: set<Version>, n: nat)
    requires Top(h, s) && Top(g, s) && n <= |h|
    ensures n <= |g| && h[..n] == g[..n]
  {
    if n > 0 {
      TopUniqueAt(h, g, s, n - 1);
      var i := n - 1;
      assert h[i] in Elems(h);
      if i == |g| {
        var j :| 0 <= j < |g| && g[j] == h[i];
        assert h[j] == h[..i][j] == g[..i][j];
        NewerAsymmetric(h[j], h[i]);
        assert false;
      }
      if h[i] != g[i] {
        TopBelow(h, g, s, i);
        TopBelow(g, h, s, i);
        NewerAsymmetric(h[i], g[i]);
      }
    }
  }

  lemma TopBelow(h: History, g: History, s: set<Version>, i: nat)
    requires Top(h, s) && Top(g, s) && i < |h| && i < |g| && h[..i] == g[..i] && h[i] != g[i]
    ensures Newer(g[i], h[i])
  {
    assert h[i] in Elems(h);
    if h[i] in g {
      var j :| 0 <= j < |g| && g[j] == h[i];
      if j < i {
        assert h[j] == h[..i][j] == g[..i][j];
        NewerAsymmetric(h[j], h[i]);
      }
    } else if i < MAX_HISTORY - 1 {
      NewerTransitive(g[i], g[MAX_HISTORY - 1], h[i]);
    }
  }

  lemma TopUnique(h: History, g: History, s: set<Version>)
    requires Top(h, s) && Top(g, s)
    ensures h == g
  {
    TopUniqueAt(h, g, s, |h|);
    TopUniqueAt(g, h, s, |g|);
    assert h[..|h|] == h && g[..|g|] == g;
  }

  // ---- UnionHistory computes it ----

  predicate KeysApart(h: History) {
    forall i, j :: 0 <= i < j < |h| ==> !SameKey(h[i], h[j])
  }

  lemma {:induction false} DedupKeeps(h: History)
    ensures KeysApart(Dedup(h)) && Elems(Dedup(h)) <= Elems(h)
    ensures forall v :: v in h ==> HasKey(Dedup(h), v)
  {
    if h != [] {
      var init, last := h[..|h| - 1], h[|h| - 1];
      DedupKeeps(init);
      assert h == init + [last];
      var d := Dedup(init);
      forall v | v in h ensures HasKey(Dedup(h), v) {
        if v in init {
          var w :| w in d && SameKey(v, w);
          assert w in Dedup(h);
        } else if !HasKey(d, last) {
          assert last in Dedup(h);
        }
      }
      assert Elems(Dedup(h)) <= Elems(d) + {last} && Elems(h) == Elems(init) + {last};
      if !HasKey(d, last) {
        forall i, j | 0 <= i < j < |d| + 1 ensures !SameKey((d + [last])[i], (d + [last])[j]) {
          if j == |d| { assert d[i] in d; }
        }
      }
    }
  }

  lemma AppendOldest(h: History, v: Version)
    requires Descending(h) && forall w :: w in h ==> Newer(w, v)
    ensures Descending(h + [v]) && Elems(h + [v]) == Elems(h) + {v}
  {
    hide Newer;
    assert Elems(h + [v]) == Elems(h) + {v};
  }

  lemma {:induction false} InsertKeeps(h: History, v: Version)
    requires Descending(h) && !HasKey(h, v)
    ensures Descending(Insert(h, v)) && Elems(Insert(h, v)) == Elems(h) + {v}
  {
    hide Newer, SameKey;
    if h == [] || !Newer(v, h[|h| - 1]) {
      forall w | w in h ensures Newer(w, v) {
        var i, last := |h| - 1, h[|h| - 1];
        NewerTotal(v, last);
        assert last in h && !SameKey(v, last);
        var k :| 0 <= k < |h| && h[k] == w;
        if k < i { NewerTransitive(w, last, v); }
      }
      AppendOldest(h, v);
    } else {
      var init, last := h[..|h| - 1], h[|h| - 1];
      assert h == init + [last];
      forall w | w in init ensures !SameKey(v, w) && Newer(w, last) {
        var k :| 0 <= k < |init| && init[k] == w;
        assert w in h && h[k] == w;
      }
      InsertKeeps(init, v);
      forall w | w in Insert(init, v) ensures Newer(w, last) {
        assert w in Elems(init) + {v};
      }
      AppendOldest(Insert(init, v), last);
      assert Elems(h) == Elems(init) + {last};
    }
  }

  lemma {:induction false} SortKeeps(h: History)
    requires KeysApart(h)
    ensures Descending(SortNewest(h)) && Elems(SortNewest(h)) == Elems(h)
  {
    if h != [] {
      var init, last := h[..|h| - 1], h[|h| - 1];
      assert h == init + [last];
      SortKeeps(init);
      forall w | w in SortNewest(init) ensures !SameKey(last, w) {
        assert w in Elems(init);
        var i :| 0 <= i < |init| && init[i] == w;
        assert !SameKey(h[i], h[|h| - 1]);
      }
      InsertKeeps(SortNewest(init), last);
    }
  }

  lemma CapTop(h: History, s: set<Version>)
    requires Descending(h) && Elems(h) == s
    ensures Top(Cap(h), s)
  {
    var r := Cap(h);
    forall v | v in s ensures v in r || (|r| == MAX_HISTORY && Newer(r[MAX_HISTORY - 1], v)) {
      var i :| 0 <= i < |h| && h[i] == v;
      if i < |r| { assert r[i] == v; }
    }
  }

  lemma UnionTop(a: History, b: History)
    requires Consistent(Elems(a) + Elems(b))
    ensures Top(UnionHistory(a, b), Elems(a) + Elems(b))
  {
    var s, d := Elems(a) + Elems(b), Dedup(a + b);
    DedupKeeps(a + b);
    assert Elems(a + b) == s;
    forall v | v in s ensures v in d {
      var w :| w in d && SameKey(v, w);
      assert w in Elems(d);
    }
    assert Elems(d) == s;
    SortKeeps(d);
    CapTop(SortNewest(d), s);
  }

  // ---- The newest of what was already cut ----

  lemma {:induction false} EmbedAt(h: History, g: History, k: nat, j: nat)
    requires Descending(h) && Descending(g) && k < |h| && j < |g| && h[k] == g[j]
    requires forall i :: 0 <= i < k ==> h[i] in g
    ensures j >= k
  {
    if k > 0 {
      var i :| 0 <= i < |g| && g[i] == h[k - 1];
      EmbedAt(h, g, k - 1, i);
      if j <= i {
        NewerAsymmetric(h[k - 1], h[k]);
        assert false;
      }
    }
  }

  lemma TopLast(h: History, g: History, t: set<Version>)
    requires Descending(h) && |h| == MAX_HISTORY && Top(g, Elems(h) + t)
    ensures |g| == MAX_HISTORY && (g[MAX_HISTORY - 1] == h[MAX_HISTORY - 1] || Newer(g[MAX_HISTORY - 1], h[MAX_HISTORY - 1]))
  {
    var z := h[MAX_HISTORY - 1];
    assert z in Elems(h);
    if z in g {
      var j :| 0 <= j < |g| && g[j] == z;
      forall k | 0 <= k < MAX_HISTORY - 1 ensures h[k] in g {
        assert h[k] in Elems(h);
        if h[k] !in g {
          NewerTransitive(g[MAX_HISTORY - 1], h[k], z);
          NewerAsymmetric(g[MAX_HISTORY - 1], z);
        }
      }
      EmbedAt(h, g, MAX_HISTORY - 1, j);
    }
  }

  lemma TopOfTop(h: History, g: History, s: set<Version>, t: set<Version>)
    requires Top(h, s) && Top(g, Elems(h) + t)
    ensures Top(g, s + t)
  {
    forall v | v in s + t ensures v in g || (|g| == MAX_HISTORY && Newer(g[MAX_HISTORY - 1], v)) {
      if v !in t && v !in h {
        TopLast(h, g, t);
        if g[MAX_HISTORY - 1] != h[MAX_HISTORY - 1] {
          NewerTransitive(g[MAX_HISTORY - 1], h[MAX_HISTORY - 1], v);
        }
      }
    }
  }

  // ---- The laws of UnionHistory ----

  lemma UnionCommutes(a: History, b: History)
    requires Consistent(Elems(a) + Elems(b))
    ensures UnionHistory(a, b) == UnionHistory(b, a)
  {
    assert Elems(a) + Elems(b) == Elems(b) + Elems(a);
    UnionTop(a, b);
    UnionTop(b, a);
    TopUnique(UnionHistory(a, b), UnionHistory(b, a), Elems(a) + Elems(b));
  }

  lemma UnionTopLeft(a: History, b: History, c: History)
    requires Consistent(Elems(a) + Elems(b) + Elems(c))
    ensures Top(UnionHistory(UnionHistory(a, b), c), Elems(a) + Elems(b) + Elems(c))
  {
    UnionTop(a, b);
    UnionTop(UnionHistory(a, b), c);
    TopOfTop(UnionHistory(a, b), UnionHistory(UnionHistory(a, b), c), Elems(a) + Elems(b), Elems(c));
  }

  lemma UnionAssociates(a: History, b: History, c: History)
    requires Consistent(Elems(a) + Elems(b) + Elems(c))
    ensures UnionHistory(UnionHistory(a, b), c) == UnionHistory(a, UnionHistory(b, c))
  {
    var s := Elems(a) + Elems(b) + Elems(c);
    UnionTopLeft(a, b, c);
    assert Elems(b) + Elems(c) + Elems(a) == s;
    UnionTopLeft(b, c, a);
    UnionTop(b, c);
    UnionCommutes(UnionHistory(b, c), a);
    TopUnique(UnionHistory(UnionHistory(a, b), c), UnionHistory(UnionHistory(b, c), a), s);
  }

  // A history united with itself is itself exactly when it is newest first and within the limit.
  lemma UnionIdempotent(a: History)
    requires Consistent(Elems(a))
    ensures UnionHistory(a, a) == a <==> Descending(a) && |a| <= MAX_HISTORY
  {
    assert Elems(a) + Elems(a) == Elems(a);
    UnionTop(a, a);
    if Descending(a) && |a| <= MAX_HISTORY {
      TopUnique(UnionHistory(a, a), a, Elems(a));
    }
  }

  // A union takes in nothing new from what it was made of.
  lemma UnionAbsorbs(a: History, b: History)
    requires Consistent(Elems(a) + Elems(b))
    ensures UnionHistory(UnionHistory(a, b), b) == UnionHistory(a, b)
  {
    UnionTopLeft(a, b, b);
    assert Elems(a) + Elems(b) + Elems(b) == Elems(a) + Elems(b);
    UnionTop(a, b);
    TopUnique(UnionHistory(UnionHistory(a, b), b), UnionHistory(a, b), Elems(a) + Elems(b));
  }

  // ---- Two versions of one node and millisecond ----

  // v is the first in h of its (TS, By).
  predicate FirstIn(h: History, v: Version) {
    exists i :: 0 <= i < |h| && h[i] == v && forall j :: 0 <= j < i ==> !SameKey(h[j], v)
  }

  lemma FirstPush(h: History, x: Version, v: Version)
    ensures FirstIn(h + [x], v) <==> FirstIn(h, v) || (v == x && !HasKey(h, x))
  {
    var g := h + [x];
    if FirstIn(g, v) {
      var i :| 0 <= i < |g| && g[i] == v && forall j :: 0 <= j < i ==> !SameKey(g[j], v);
      if i < |h| {
        assert h[i] == v;
        forall j | 0 <= j < i ensures !SameKey(h[j], v) {
          assert g[j] == h[j];
        }
      } else {
        forall w | w in h ensures !SameKey(x, w) {
          var j :| 0 <= j < |h| && h[j] == w;
          assert g[j] == w;
        }
      }
    }
    if FirstIn(h, v) {
      var i :| 0 <= i < |h| && h[i] == v && forall j :: 0 <= j < i ==> !SameKey(h[j], v);
      assert g[i] == v;
    }
    if v == x && !HasKey(h, x) {
      assert g[|h|] == v;
      forall j | 0 <= j < |h| ensures !SameKey(g[j], v) {
        assert g[j] == h[j] && h[j] in h;
      }
    }
  }

  // What the union keeps of each (TS, By) is its first version.
  lemma {:induction false} DedupFirst(h: History, v: Version)
    ensures v in Dedup(h) <==> FirstIn(h, v)
  {
    if h != [] {
      var init, last := h[..|h| - 1], h[|h| - 1];
      assert h == init + [last];
      DedupFirst(init, v);
      FirstPush(init, last, v);
      DedupKeeps(init);
      assert HasKey(Dedup(init), last) <==> HasKey(init, last) by {
        if HasKey(Dedup(init), last) {
          var w :| w in Dedup(init) && SameKey(last, w);
          assert w in Elems(init);
        }
        if HasKey(init, last) {
          var w :| w in init && SameKey(last, w);
          assert HasKey(Dedup(init), w);
          var u :| u in Dedup(init) && SameKey(w, u);
        }
      }
    }
  }

  function KeyOf(v: Version): (int, string) {
    (v.ts, v.writer)
  }

  // The keys of h that are newer than v.
  function NewerKeys(h: History, v: Version): set<(int, string)> {
    set w | w in h && Newer(w, v) :: KeyOf(w)
  }

  function Keys(h: History): set<(int, string)> {
    set w | w in h :: KeyOf(w)
  }

  lemma {:induction false} KeysCount(h: History)
    requires Descending(h)
    ensures |Keys(h)| == |h|
  {
    hide Newer;
    if h != [] {
      var init, last := h[..|h| - 1], h[|h| - 1];
      assert h == init + [last];
      KeysCount(init);
      forall w | w in init ensures KeyOf(w) != KeyOf(last) {
        var i :| 0 <= i < |init| && init[i] == w;
        assert Newer(h[i], h[|h| - 1]);
        NewerAsymmetric(w, last);
      }
      assert Keys(h) == Keys(init) + {KeyOf(last)};
    }
  }

  lemma NewerSame(u: Version, v: Version, w: Version)
    requires SameKey(v, w)
    ensures Newer(u, v) <==> Newer(u, w)
  {
  }

  // In a list newest first, a version stands after exactly the keys newer than its own.
  lemma PlaceOf(g: History, i: nat)
    requires Descending(g) && i < |g|
    ensures NewerKeys(g, g[i]) == Keys(g[..i]) && |Keys(g[..i])| == i
  {
    hide Newer;
    forall w | w in g && Newer(w, g[i]) ensures w in g[..i] {
      var j :| 0 <= j < |g| && g[j] == w;
      if j >= i {
        if j > i {
          NewerAsymmetric(g[i], g[j]);
        } else {
          NewerAsymmetric(w, w);
        }
      }
      assert g[..i][j] == w;
    }
    forall w | w in g[..i] ensures w in g && Newer(w, g[i]) {
      var j :| 0 <= j < i && g[..i][j] == w;
      assert g[j] == w;
    }
    KeysCount(g[..i]);
  }

  lemma NewerKeysOf(h: History, d: History, v: Version)
    requires Elems(d) <= Elems(h) && forall w :: w in h ==> HasKey(d, w)
    ensures NewerKeys(h, v) == NewerKeys(d, v)
  {
    forall k | k in NewerKeys(h, v) ensures k in NewerKeys(d, v) {
      var w :| w in h && Newer(w, v) && KeyOf(w) == k;
      var u :| u in d && SameKey(w, u);
      assert Newer(u, v) && KeyOf(u) == k;
    }
    forall k | k in NewerKeys(d, v) ensures k in NewerKeys(h, v) {
      var w :| w in d && Newer(w, v) && KeyOf(w) == k;
      assert w in Elems(h);
    }
  }

  // What a union holds: of each of the newest ten keys of both lists, the first version.
  lemma UnionHolds(a: History, b: History, v: Version)
    ensures v in UnionHistory(a, b) <==> FirstIn(a + b, v) && |NewerKeys(a + b, v)| < MAX_HISTORY
  {
    hide NewerKeys, FirstIn, Dedup, SortNewest;
    var h, d := a + b, Dedup(a + b);
    var g := SortNewest(d);
    DedupFirst(h, v);
    DedupKeeps(h);
    SortKeeps(d);
    assert v in g <==> v in Elems(g);
    assert v in d <==> v in Elems(d);
    if v in g {
      var i :| 0 <= i < |g| && g[i] == v;
      PlaceOf(g, i);
      NewerKeysOf(h, d, v);
      SameNewer(d, g, v);
      if i < MAX_HISTORY {
        assert Cap(g)[i] == v;
      } else if v in Cap(g) {
        var j :| 0 <= j < |Cap(g)| && Cap(g)[j] == v;
        assert Newer(g[j], g[i]);
        NewerAsymmetric(g[j], g[i]);
      }
    }
  }

  lemma SameNewer(d: History, g: History, v: Version)
    requires Elems(d) == Elems(g)
    ensures NewerKeys(d, v) == NewerKeys(g, v)
  {
    assert forall w :: w in d <==> w in Elems(d);
    assert forall w :: w in g <==> w in Elems(g);
  }

  // Of each of the newest ten keys, the first version in a + b is the first in b + a.
  predicate Agree(a: History, b: History) {
    forall v :: v in a + b && FirstIn(a + b, v) && |NewerKeys(a + b, v)| < MAX_HISTORY ==> FirstIn(b + a, v)
  }

  // A history that begins with a version agrees with that version alone, and every one with none.
  lemma HeadAgrees(v: Version, h: History)
    requires h != [] && h[0] == v
    ensures Agree([v], h)
  {
    var a, b := [v] + h, h + [v];
    forall w | w in a && FirstIn(a, w) ensures FirstIn(b, w) {
      var i :| 0 <= i < |a| && a[i] == w && forall j :: 0 <= j < i ==> !SameKey(a[j], w);
      var k := if i == 0 then 0 else i - 1;
      assert b[k] == w;
      forall j | 0 <= j < k ensures !SameKey(b[j], w) {
        assert b[j] == h[j] == a[j + 1];
      }
    }
  }

  lemma NothingAgrees(h: History)
    ensures Agree([], h) && Agree(h, h)
  {
    assert [] + h == h + [];
  }

  lemma AgreeSwaps(a: History, b: History)
    ensures Agree(a, b) <==> Agree(b, a)
  {
    UnionCommutesExactly(a, b);
    UnionCommutesExactly(b, a);
  }

  lemma OtherWay(a: History, b: History, v: Version)
    ensures NewerKeys(a + b, v) == NewerKeys(b + a, v)
    ensures FirstIn(a + b, v) ==> v in a + b && v in b + a
  {
    assert Elems(a + b) == Elems(b + a);
    SameNewer(a + b, b + a, v);
    if FirstIn(a + b, v) {
      assert v in Elems(b + a);
    }
  }

  lemma {:induction false} FirstOf(h: History, v: Version) returns (w: Version)
    requires v in h
    ensures FirstIn(h, w) && SameKey(v, w)
  {
    DedupKeeps(h);
    var u :| u in Dedup(h) && SameKey(v, u);
    w := u;
    DedupFirst(h, w);
  }

  lemma FirstUnique(h: History, v: Version, w: Version)
    requires FirstIn(h, v) && FirstIn(h, w) && SameKey(v, w)
    ensures v == w
  {
    var i :| 0 <= i < |h| && h[i] == v && forall j :: 0 <= j < i ==> !SameKey(h[j], v);
    var k :| 0 <= k < |h| && h[k] == w && forall j :: 0 <= j < k ==> !SameKey(h[j], w);
    assert i <= k && k <= i;
  }

  lemma KeyNewer(h: History, v: Version, w: Version)
    requires SameKey(v, w)
    ensures NewerKeys(h, v) == NewerKeys(h, w)
  {
    forall u ensures Newer(u, v) <==> Newer(u, w) {
      NewerSame(u, v, w);
    }
  }

  // The version of v's key in the other union.
  lemma Counterpart(a: History, b: History, v: Version) returns (w: Version)
    requires v in UnionHistory(b, a)
    ensures w in UnionHistory(a, b) && SameKey(v, w) && FirstIn(a + b, w)
  {
    hide FirstIn, NewerKeys, SameKey, UnionHistory;
    UnionHolds(b, a, v);
    OtherWay(b, a, v);
    w := FirstOf(a + b, v);
    KeyNewer(a + b, v, w);
    OtherWay(a, b, v);
    UnionHolds(a, b, w);
  }

  lemma UnionDescends(a: History, b: History)
    ensures Descending(UnionHistory(a, b)) && Top(UnionHistory(a, b), Elems(UnionHistory(a, b)))
  {
    DedupKeeps(a + b);
    SortKeeps(Dedup(a + b));
  }

  lemma AgreeHolds(a: History, b: History, v: Version)
    requires Agree(a, b)
    ensures v in UnionHistory(a, b) ==> v in UnionHistory(b, a)
    ensures v in UnionHistory(b, a) ==> v in UnionHistory(a, b)
  {
    hide FirstIn, NewerKeys, SameKey, UnionHistory;
    UnionHolds(a, b, v);
    UnionHolds(b, a, v);
    OtherWay(a, b, v);
    if v in UnionHistory(b, a) {
      var w := Counterpart(a, b, v);
      UnionHolds(a, b, w);
      OtherWay(a, b, w);
      FirstUnique(b + a, v, w);
    }
  }

  // For all histories: the two sides of an exchange unite to the same history if and only if, of
  // each of the newest ten (TS, By), both meet the same version first.
  lemma UnionCommutesExactly(a: History, b: History)
    ensures UnionHistory(a, b) == UnionHistory(b, a) <==> Agree(a, b)
  {
    hide FirstIn, NewerKeys, UnionHistory, Newer;
    var x, y := UnionHistory(a, b), UnionHistory(b, a);
    if x == y {
      forall v | v in a + b && FirstIn(a + b, v) && |NewerKeys(a + b, v)| < MAX_HISTORY ensures FirstIn(b + a, v) {
        UnionHolds(a, b, v);
        UnionHolds(b, a, v);
      }
    }
    if Agree(a, b) {
      forall v ensures v in x <==> v in y {
        AgreeHolds(a, b, v);
      }
      assert Elems(x) == Elems(y);
      UnionDescends(a, b);
      UnionDescends(b, a);
      TopUnique(x, y, Elems(x));
    }
  }

  // Once exchanged, both stay as they are: what differs then differs for ever.
  lemma ExchangedFixed(a: History, b: History)
    ensures UnionHistory(UnionHistory(a, b), UnionHistory(b, a)) == UnionHistory(a, b)
  {
    hide FirstIn, NewerKeys, UnionHistory, Newer;
    var x, y := UnionHistory(a, b), UnionHistory(b, a);
    var d := Dedup(x + y);
    UnionDescends(a, b);
    DedupKeeps(x + y);
    forall v ensures v in d <==> v in x {
      DedupFirst(x + y, v);
      FixedFirst(a, b, v);
    }
    assert Elems(d) == Elems(x);
    UnionTopFirst(x, y);
    TopUnique(UnionHistory(x, y), x, Elems(x));
  }

  lemma UnionTopFirst(a: History, b: History)
    ensures Top(UnionHistory(a, b), Elems(Dedup(a + b)))
  {
    DedupKeeps(a + b);
    SortKeeps(Dedup(a + b));
    CapTop(SortNewest(Dedup(a + b)), Elems(Dedup(a + b)));
  }

  lemma FixedFirst(a: History, b: History, v: Version)
    ensures var x, y := UnionHistory(a, b), UnionHistory(b, a); FirstIn(x + y, v) <==> v in x
  {
    hide NewerKeys, UnionHistory, Newer;
    var x, y := UnionHistory(a, b), UnionHistory(b, a);
    UnionDescends(a, b);
    if v in x {
      var i :| 0 <= i < |x| && x[i] == v;
      forall j | 0 <= j < i ensures !SameKey((x + y)[j], v) {
        assert Newer(x[j], x[i]);
        NewerAsymmetric(x[j], x[i]);
      }
      assert (x + y)[i] == v;
    } else if v in y {
      var w := Counterpart(a, b, v);
      assert HasKey(x, v);
      NotFirst(x, y, v);
    }
  }

  lemma NotFirst(x: History, y: History, v: Version)
    requires v !in x && HasKey(x, v)
    ensures !FirstIn(x + y, v)
  {
    var w :| w in x && SameKey(v, w);
    var k :| 0 <= k < |x| && x[k] == w;
    forall i | 0 <= i < |x + y| && (x + y)[i] == v ensures k < i && SameKey((x + y)[k], v) {
    }
  }

  // Two versions of one node and millisecond are one version to the union: the first list wins.
  lemma SameMillisecond(v: Version, w: Version)
    requires SameKey(v, w)
    ensures UnionHistory([v], [w]) == [v] && (UnionHistory([v], [w]) == UnionHistory([w], [v]) <==> v == w)
  {
    FirstWins(v, w);
    FirstWins(w, v);
  }

  lemma FirstWins(v: Version, w: Version)
    requires SameKey(v, w)
    ensures UnionHistory([v], [w]) == [v]
  {
    assert [v] + [w] == [v, w] && [v, w][..1] == [v] && [v][..0] == [];
    assert v in [v];
    assert Dedup([v]) == [v];
    assert Dedup([v, w]) == [v];
    assert SortNewest([v]) == Insert([], v);
  }

  // For all histories: the union is at most ten versions of the two, by time, and of one time by name,
  // the latest first; what it does not have of a time and name is older than all ten.
  lemma UnionNewest(a: History, b: History)
    ensures var h := UnionHistory(a, b);
      && |h| <= 10
      && (forall i, j :: 0 <= i < j < |h| ==> h[i].ts > h[j].ts || (h[i].ts == h[j].ts && Less(h[j].writer, h[i].writer)))
      && (forall v :: v in h ==> v in a + b)
      && (forall v :: v in a + b ==>
            || (exists w :: w in h && w.ts == v.ts && w.writer == v.writer)
            || (|h| == 10 && (h[9].ts > v.ts || (h[9].ts == v.ts && Less(v.writer, h[9].writer)))))
  {
    hide UnionHistory, Dedup, SortNewest;
    var h, d := UnionHistory(a, b), Dedup(a + b);
    UnionTopFirst(a, b);
    DedupKeeps(a + b);
    forall v | v in h ensures v in a + b { assert v in Elems(h) && v in Elems(d); }
    forall v | v in a + b
      ensures || (exists w :: w in h && w.ts == v.ts && w.writer == v.writer)
              || (|h| == 10 && (h[9].ts > v.ts || (h[9].ts == v.ts && Less(v.writer, h[9].writer))))
    {
      assert HasKey(d, v);
      var w :| w in d && SameKey(v, w);
      assert w in Elems(d);
    }
  }
}

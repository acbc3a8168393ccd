/**
 What a STRSESS payload is, apart from how it is walked: a Session and the bytes it is written
 as. The walk accepts exactly the payloads that are some session's bytes, and reports exactly
 that session's sections.
 */
module SessGrammar {
  import opened Bytes
  import opened Options
  import opened SessFile

  // A list built at its end, as the walk meets it.
  datatype List<+T> = Nil | Snoc(init: List<T>, last: T)

  function Len<T>(l: List<T>): nat {
    if l.Nil? then 0 else Len(l.init) + 1
  }

  datatype Rec = Rec(pre: Bytes, vecs: List<Bytes>, post: Bytes)
  datatype Session = Session(geometry: Bytes, live: Rec, ckpts: List<Rec>, layers: List<Rec>)

  predicate VecOk(kind: Kind, j: nat, v: Bytes) {
    |v| % Elem(kind, j) == 0 && |v| / Elem(kind, j) < TWO64
  }

  predicate VecsOk(kind: Kind, vecs: List<Bytes>) {
    vecs.Nil? || (VecsOk(kind, vecs.init) && VecOk(kind, Len(vecs.init), vecs.last))
  }

  predicate RecOk(kind: Kind, r: Rec) {
    && |r.pre| == PreLen(kind) && |r.post| == PostLen(kind)
    && Len(r.vecs) == PartCount(kind) && VecsOk(kind, r.vecs)
  }

  predicate RecsOk(kind: Kind, rs: List<Rec>) {
    rs.Nil? || (RecsOk(kind, rs.init) && RecOk(kind, rs.last))
  }

  predicate SessionOk(s: Session) {
    && |s.geometry| == GEOMETRY && RecOk(Live, s.live)
    && Len(s.ckpts) < TWO64 && RecsOk(Ckpt, s.ckpts)
    && Len(s.layers) < TWO64 && RecsOk(Kv, s.layers)
  }

  // A vector is its element count and its elements.
  function VecBytes(kind: Kind, j: nat, v: Bytes): Bytes {
    U64(|v| / Elem(kind, j)) + v
  }

  function VecsBytes(kind: Kind, vecs: List<Bytes>): Bytes {
    if vecs.Nil? then [] else VecsBytes(kind, vecs.init) + VecBytes(kind, Len(vecs.init), vecs.last)
  }

  function RecBytes(kind: Kind, r: Rec): Bytes {
    r.pre + VecsBytes(kind, r.vecs) + r.post
  }

  function RecsBytes(kind: Kind, rs: List<Rec>): Bytes {
    if rs.Nil? then [] else RecsBytes(kind, rs.init) + RecBytes(kind, rs.last)
  }

  function GroupBytes(kind: Kind, rs: List<Rec>): Bytes {
    U64(Len(rs)) + RecsBytes(kind, rs)
  }

  function PayloadBytes(s: Session): Bytes {
    s.geometry + RecBytes(Live, s.live) + GroupBytes(Ckpt, s.ckpts) + GroupBytes(Kv, s.layers)
  }

  // The sections of a session whose bytes start at off.
  function VecsSections(kind: Kind, i: nat, vecs: List<Bytes>, off: nat): seq<Section> {
    if vecs.Nil? then [] else
      VecsSections(kind, i, vecs.init, off)
        + [Section(Field(kind, i, Len(vecs.init)), off + |VecsBytes(kind, vecs.init)| + 8, |vecs.last|)]
  }

  function RecSections(kind: Kind, i: nat, r: Rec, off: nat): seq<Section> {
    VecsSections(kind, i, r.vecs, off + |r.pre|)
  }

  function RecsSections(kind: Kind, rs: List<Rec>, off: nat): seq<Section> {
    if rs.Nil? then [] else
      RecsSections(kind, rs.init, off) + RecSections(kind, Len(rs.init), rs.last, off + |RecsBytes(kind, rs.init)|)
  }

  function SessionSections(s: Session, off: nat): seq<Section> {
    var a := off + |s.geometry|;
    var b := a + |RecBytes(Live, s.live)|;
    var c := b + |GroupBytes(Ckpt, s.ckpts)|;
    RecSections(Live, 0, s.live, a) + RecsSections(Ckpt, s.ckpts, b + 8) + RecsSections(Kv, s.layers, c + 8)
  }

  // r is w moved over the bytes x, which stand in f where w was and hold the sections secs.
  predicate Moved(f: Bytes, w: Walk, x: Bytes, secs: seq<Section>, r: Walk) {
    w.Walk? && r == Walk(w.p + |x|, w.out + secs) && At(f, w.p, x)
  }

  lemma MovedTwice(f: Bytes, w: Walk, a: Bytes, sa: seq<Section>, m: Walk, b: Bytes, sb: seq<Section>, r: Walk)
    requires Moved(f, w, a, sa, m) && Moved(f, m, b, sb, r)
    ensures Moved(f, w, a + b, sa + sb, r)
  {
    AtSplit(f, w.p, a, b);
    assert w.out + sa + sb == w.out + (sa + sb);
  }

  lemma MovedThen(f: Bytes, w: Walk, a: Bytes, m: Walk, b: Bytes, sb: seq<Section>, r: Walk)
    requires Moved(f, w, a, [], m) && Moved(f, m, b, sb, r)
    ensures Moved(f, w, a + b, sb, r)
  {
    MovedTwice(f, w, a, [], m, b, sb, r);
    assert [] + sb == sb;
  }

  lemma SkipMoved(f: Bytes, end: nat, w: Walk, n: nat)
    requires In(f, end, w) && SkipW(f, end, w, n).Walk?
    ensures Moved(f, w, f[w.p..w.p + n], [], SkipW(f, end, w, n))
  {
  }

  lemma CountMoved(f: Bytes, end: nat, w: Walk)
    requires In(f, end, w) && CountW(f, end, w).0.Walk?
    ensures CountW(f, end, w).1 < TWO64
    ensures Moved(f, w, U64(CountW(f, end, w).1), [], CountW(f, end, w).0)
  {
    LEOfWord(f[w.p..w.p + 8]);
    Pow256Values();
  }

  lemma Multiple(n: nat, elem: nat)
    requires elem > 0
    ensures n * elem % elem == 0 && n * elem / elem == n
  {
    Fits(n, n * elem, elem);
    Fits(n + 1, n * elem, elem);
    assert n * elem / elem == n;
    assert n * elem == elem * (n * elem / elem) + n * elem % elem;
  }

  lemma VecMoved(f: Bytes, end: nat, w: Walk, fd: Field) returns (v: Bytes)
    requires In(f, end, w) && VecW(f, end, w, fd).Walk?
    ensures w.Walk? && VecOk(fd.kind, fd.j, v)
    ensures Moved(f, w, VecBytes(fd.kind, fd.j, v), [Section(fd, w.p + 8, |v|)], VecW(f, end, w, fd))
  {
    var elem := Elem(fd.kind, fd.j);
    var (w1, n) := CountW(f, end, w);
    CountMoved(f, end, w);
    Fits(n, end - w1.p, elem);
    Multiple(n, elem);
    v := f[w1.p..w1.p + n * elem];
    MovedThen(f, w, U64(n), w1, v, [Section(fd, w1.p, n * elem)], VecW(f, end, w, fd));
  }

  lemma {:induction false} VecsMoved(f: Bytes, end: nat, w: Walk, kind: Kind, i: nat, k: nat) returns (vecs: List<Bytes>)
    requires In(f, end, w) && VecsW(f, end, w, kind, i, k).Walk?
    ensures w.Walk? && Len(vecs) == k && VecsOk(kind, vecs)
    ensures Moved(f, w, VecsBytes(kind, vecs), VecsSections(kind, i, vecs, w.p), VecsW(f, end, w, kind, i, k))
  {
    vecs := Nil;
    if k > 0 {
      var m := VecsW(f, end, w, kind, i, k - 1);
      var init := VecsMoved(f, end, w, kind, i, k - 1);
      var v := VecMoved(f, end, m, Field(kind, i, k - 1));
      MovedTwice(f, w, VecsBytes(kind, init), VecsSections(kind, i, init, w.p), m, VecBytes(kind, k - 1, v),
                 [Section(Field(kind, i, k - 1), m.p + 8, |v|)], VecsW(f, end, w, kind, i, k));
      vecs := Snoc(init, v);
    }
  }

  lemma RecMoved(f: Bytes, end: nat, w: Walk, kind: Kind, i: nat) returns (r: Rec)
    requires In(f, end, w) && RecW(f, end, w, kind, i).Walk?
    ensures w.Walk? && RecOk(kind, r)
    ensures Moved(f, w, RecBytes(kind, r), RecSections(kind, i, r, w.p), RecW(f, end, w, kind, i))
  {
    var n := PartCount(kind);
    var w1 := SkipW(f, end, w, PreLen(kind));
    if w1.Bad? {
      VecsLatched(f, end, kind, i, n);
    }
    var w2 := VecsW(f, end, w1, kind, i, n);
    SkipMoved(f, end, w, PreLen(kind));
    var vecs := VecsMoved(f, end, w1, kind, i, n);
    SkipMoved(f, end, w2, PostLen(kind));
    r := Rec(f[w.p..w1.p], vecs, f[w2.p..w2.p + PostLen(kind)]);
    var secs := VecsSections(kind, i, vecs, w1.p);
    MovedThen(f, w, r.pre, w1, VecsBytes(kind, vecs), secs, w2);
    MovedTwice(f, w, r.pre + VecsBytes(kind, vecs), secs, w2, r.post, [], RecW(f, end, w, kind, i));
    assert secs + [] == secs;
  }

  lemma RecsStep(f: Bytes, w: Walk, kind: Kind, init: List<Rec>, m: Walk, r: Rec, z: Walk)
    requires w.Walk? && Moved(f, w, RecsBytes(kind, init), RecsSections(kind, init, w.p), m)
    requires Moved(f, m, RecBytes(kind, r), RecSections(kind, Len(init), r, m.p), z)
    ensures Moved(f, w, RecsBytes(kind, Snoc(init, r)), RecsSections(kind, Snoc(init, r), w.p), z)
  {
    MovedTwice(f, w, RecsBytes(kind, init), RecsSections(kind, init, w.p), m,
               RecBytes(kind, r), RecSections(kind, Len(init), r, m.p), z);
  }

  lemma {:induction false} RecsMoved(f: Bytes, end: nat, w: Walk, kind: Kind, n: nat) returns (rs: List<Rec>)
    requires In(f, end, w) && RecsW(f, end, w, kind, n).Walk?
    ensures w.Walk? && Len(rs) == n && RecsOk(kind, rs)
    ensures Moved(f, w, RecsBytes(kind, rs), RecsSections(kind, rs, w.p), RecsW(f, end, w, kind, n))
  {
    rs := Nil;
    if n > 0 {
      var m := RecsW(f, end, w, kind, n - 1);
      var r := RecMoved(f, end, m, kind, n - 1);
      var init := RecsMoved(f, end, w, kind, n - 1);
      RecsStep(f, w, kind, init, m, r, RecsW(f, end, w, kind, n));
      rs := Snoc(init, r);
    }
  }

  lemma GroupMoved(f: Bytes, end: nat, w: Walk, kind: Kind) returns (rs: List<Rec>)
    requires In(f, end, w) && GroupW(f, end, w, kind).Walk?
    ensures w.Walk? && Len(rs) < TWO64 && RecsOk(kind, rs)
    ensures Moved(f, w, GroupBytes(kind, rs), RecsSections(kind, rs, w.p + 8), GroupW(f, end, w, kind))
  {
    var (w1, n) := CountW(f, end, w);
    rs := RecsMoved(f, end, w1, kind, n);
    CountMoved(f, end, w);
    MovedThen(f, w, U64(n), w1, RecsBytes(kind, rs), RecsSections(kind, rs, w1.p), GroupW(f, end, w, kind));
  }

  lemma PayloadMoved(f: Bytes, end: nat, w: Walk) returns (s: Session)
    requires In(f, end, w) && PayloadW(f, end, w).Walk?
    ensures w.Walk? && SessionOk(s)
    ensures Moved(f, w, PayloadBytes(s), SessionSections(s, w.p), PayloadW(f, end, w))
  {
    hide RecW, GroupW, RecOk, RecsOk, RecBytes, RecsBytes, GroupBytes, RecSections, RecsSections, Len;
    var w1 := SkipW(f, end, w, GEOMETRY);
    var w2 := RecW(f, end, w1, Live, 0);
    var w3 := GroupW(f, end, w2, Ckpt);
    var w4 := GroupW(f, end, w3, Kv);
    var layers := GroupMoved(f, end, w3, Kv);
    var ckpts := GroupMoved(f, end, w2, Ckpt);
    var live := RecMoved(f, end, w1, Live, 0);
    SkipMoved(f, end, w, GEOMETRY);
    s := Session(f[w.p..w.p + GEOMETRY], live, ckpts, layers);
    MovedFour(f, w, s.geometry, w1, RecBytes(Live, live), RecSections(Live, 0, live, w1.p), w2,
              GroupBytes(Ckpt, ckpts), RecsSections(Ckpt, ckpts, w2.p + 8), w3,
              GroupBytes(Kv, layers), RecsSections(Kv, layers, w3.p + 8), w4);
  }

  lemma MovedFour(f: Bytes, w: Walk, a: Bytes, w1: Walk, b: Bytes, sb: seq<Section>, w2: Walk,
                  c: Bytes, sc: seq<Section>, w3: Walk, d: Bytes, sd: seq<Section>, w4: Walk)
    requires Moved(f, w, a, [], w1) && Moved(f, w1, b, sb, w2) && Moved(f, w2, c, sc, w3) && Moved(f, w3, d, sd, w4)
    ensures Moved(f, w, a + b + c + d, sb + sc + sd, w4)
  {
    MovedThen(f, w, a, w1, b, sb, w2);
    MovedTwice(f, w, a + b, sb, w2, c, sc, w3);
    MovedTwice(f, w, a + b + c, sb + sc, w3, d, sd, w4);
  }

  // The other direction: where the bytes x stand in the file below end, the walk moves over them.
  predicate Room(f: Bytes, end: nat, w: Walk, x: Bytes) {
    w.Walk? && w.p + |x| <= end <= |f| && At(f, w.p, x)
  }

  lemma RoomSplit(f: Bytes, end: nat, w: Walk, a: Bytes, m: Walk, b: Bytes)
    requires Room(f, end, w, a + b) && m.Walk? && m.p == w.p + |a|
    ensures Room(f, end, w, a) && Room(f, end, m, b)
  {
    AtSplit(f, w.p, a, b);
  }

  lemma CountFinds(f: Bytes, end: nat, w: Walk, n: nat)
    requires n < TWO64 && Room(f, end, w, U64(n))
    ensures CountW(f, end, w) == (Walk(w.p + 8, w.out), n)
  {
    U64Word(n);
  }

  lemma Exact(kind: Kind, j: nat, v: Bytes)
    requires VecOk(kind, j, v)
    ensures |v| == (|v| / Elem(kind, j)) * Elem(kind, j)
  {
    var e := Elem(kind, j);
    assert e == 1 || e == 4 || e == 16;
  }

  lemma VecFinds(f: Bytes, end: nat, w: Walk, fd: Field, v: Bytes)
    requires VecOk(fd.kind, fd.j, v) && Room(f, end, w, VecBytes(fd.kind, fd.j, v))
    ensures Moved(f, w, VecBytes(fd.kind, fd.j, v), [Section(fd, w.p + 8, |v|)], VecW(f, end, w, fd))
  {
    var elem := Elem(fd.kind, fd.j);
    var n := |v| / elem;
    Exact(fd.kind, fd.j, v);
    RoomSplit(f, end, w, U64(n), Walk(w.p + 8, w.out), v);
    CountFinds(f, end, w, n);
    Fits(n, end - w.p - 8, elem);
  }

  lemma {:induction false} VecsFind(f: Bytes, end: nat, w: Walk, kind: Kind, i: nat, vecs: List<Bytes>)
    requires VecsOk(kind, vecs) && Room(f, end, w, VecsBytes(kind, vecs))
    ensures Moved(f, w, VecsBytes(kind, vecs), VecsSections(kind, i, vecs, w.p), VecsW(f, end, w, kind, i, Len(vecs)))
  {
    if vecs.Snoc? {
      var j := Len(vecs.init);
      var a, b := VecsBytes(kind, vecs.init), VecBytes(kind, j, vecs.last);
      RoomSplit(f, end, w, a, Walk(w.p + |a|, []), b);
      VecsFind(f, end, w, kind, i, vecs.init);
      var m := VecsW(f, end, w, kind, i, j);
      VecFinds(f, end, m, Field(kind, i, j), vecs.last);
      MovedTwice(f, w, a, VecsSections(kind, i, vecs.init, w.p), m, b,
                 [Section(Field(kind, i, j), m.p + 8, |vecs.last|)], VecsW(f, end, w, kind, i, j + 1));
    }
  }

  lemma RecFinds(f: Bytes, end: nat, w: Walk, kind: Kind, i: nat, r: Rec)
    requires RecOk(kind, r) && Room(f, end, w, RecBytes(kind, r))
    ensures Moved(f, w, RecBytes(kind, r), RecSections(kind, i, r, w.p), RecW(f, end, w, kind, i))
  {
    var x := VecsBytes(kind, r.vecs);
    RoomSplit(f, end, w, r.pre + x, Walk(w.p + |r.pre| + |x|, []), r.post);
    RoomSplit(f, end, w, r.pre, Walk(w.p + |r.pre|, []), x);
    var w1 := SkipW(f, end, w, |r.pre|);
    VecsFind(f, end, w1, kind, i, r.vecs);
    var w2 := VecsW(f, end, w1, kind, i, PartCount(kind));
    var secs := VecsSections(kind, i, r.vecs, w1.p);
    MovedThen(f, w, r.pre, w1, x, secs, w2);
    MovedTwice(f, w, r.pre + x, secs, w2, r.post, [], SkipW(f, end, w2, |r.post|));
    assert secs + [] == secs;
  }

  lemma {:induction false} RecsFind(f: Bytes, end: nat, w: Walk, kind: Kind, rs: List<Rec>)
    requires RecsOk(kind, rs) && Room(f, end, w, RecsBytes(kind, rs))
    ensures Moved(f, w, RecsBytes(kind, rs), RecsSections(kind, rs, w.p), RecsW(f, end, w, kind, Len(rs)))
  {
    hide RecW, RecOk, RecBytes, RecSections, At;
    if rs.Snoc? {
      var n := Len(rs.init);
      var a, b := RecsBytes(kind, rs.init), RecBytes(kind, rs.last);
      RoomSplit(f, end, w, a, Walk(w.p + |a|, []), b);
      RecsFind(f, end, w, kind, rs.init);
      var m := RecsW(f, end, w, kind, n);
      RecFinds(f, end, m, kind, n, rs.last);
      RecsStep(f, w, kind, rs.init, m, rs.last, RecsW(f, end, w, kind, n + 1));
    }
  }

  lemma GroupFinds(f: Bytes, end: nat, w: Walk, kind: Kind, rs: List<Rec>)
    requires Len(rs) < TWO64 && RecsOk(kind, rs) && Room(f, end, w, GroupBytes(kind, rs))
    ensures Moved(f, w, GroupBytes(kind, rs), RecsSections(kind, rs, w.p + 8), GroupW(f, end, w, kind))
  {
    var n := Len(rs);
    var w1 := Walk(w.p + 8, w.out);
    RoomSplit(f, end, w, U64(n), w1, RecsBytes(kind, rs));
    CountFinds(f, end, w, n);
    RecsFind(f, end, w1, kind, rs);
    assert w.out + [] == w.out;
    MovedThen(f, w, U64(n), w1, RecsBytes(kind, rs), RecsSections(kind, rs, w1.p), GroupW(f, end, w, kind));
  }

  lemma PayloadFinds(f: Bytes, end: nat, w: Walk, s: Session)
    requires SessionOk(s) && Room(f, end, w, PayloadBytes(s))
    ensures Moved(f, w, PayloadBytes(s), SessionSections(s, w.p), PayloadW(f, end, w))
  {
    hide RecW, GroupW, RecOk, RecsOk, RecBytes, RecsBytes, GroupBytes, RecSections, RecsSections, Len;
    var a, b := s.geometry, RecBytes(Live, s.live);
    var c, d := GroupBytes(Ckpt, s.ckpts), GroupBytes(Kv, s.layers);
    RoomSplit(f, end, w, a + b + c, Walk(w.p + |a + b + c|, []), d);
    RoomSplit(f, end, w, a + b, Walk(w.p + |a + b|, []), c);
    RoomSplit(f, end, w, a, Walk(w.p + |a|, []), b);
    var w1 := SkipW(f, end, w, GEOMETRY);
    SkipMoved(f, end, w, GEOMETRY);
    RecFinds(f, end, w1, Live, 0, s.live);
    var w2 := RecW(f, end, w1, Live, 0);
    GroupFinds(f, end, w2, Ckpt, s.ckpts);
    var w3 := GroupW(f, end, w2, Ckpt);
    GroupFinds(f, end, w3, Kv, s.layers);
    var w4 := GroupW(f, end, w3, Kv);
    MovedFour(f, w, a, w1, b, RecSections(Live, 0, s.live, w1.p), w2,
              c, RecsSections(Ckpt, s.ckpts, w2.p + 8), w3, d, RecsSections(Kv, s.layers, w3.p + 8), w4);
  }

  lemma Enclosed(f: Bytes, x: Bytes)
    requires |f| >= SESS_HEADER + SESS_TRAILER
    ensures At(f, SESS_HEADER, x) && SESS_HEADER + |x| == |f| - SESS_TRAILER
      <==> f[SESS_HEADER..|f| - SESS_TRAILER] == x
    ensures f[SESS_HEADER..|f| - SESS_TRAILER] == x ==> f == f[..SESS_HEADER] + x + f[|f| - SESS_TRAILER..]
  {
    var end := |f| - SESS_TRAILER;
    assert f == f[..SESS_HEADER] + f[SESS_HEADER..end] + f[end..];
  }

  // ParseLayout accepts only a session: the file is its header, the session's bytes, a trailer.
  lemma ParseSound(f: Bytes) returns (s: Session)
    requires Parse(f).Some?
    ensures HeaderOk(f) && SessionOk(s)
    ensures f[SESS_HEADER..|f| - SESS_TRAILER] == PayloadBytes(s)
    ensures f == f[..SESS_HEADER] + PayloadBytes(s) + f[|f| - SESS_TRAILER..]
    ensures Parse(f).value.sections == SessionSections(s, SESS_HEADER)
  {
    hide PayloadW, PayloadBytes, SessionSections, SessionOk;
    s := PayloadMoved(f, |f| - SESS_TRAILER, Walk(SESS_HEADER, []));
    Enclosed(f, PayloadBytes(s));
    assert [] + SessionSections(s, SESS_HEADER) == SessionSections(s, SESS_HEADER);
  }

  // ... and every session with a good header, and with exactly its sections.
  lemma ParseComplete(f: Bytes, s: Session)
    requires HeaderOk(f) && SessionOk(s)
    requires f[SESS_HEADER..|f| - SESS_TRAILER] == PayloadBytes(s)
    ensures Parse(f) == Some(LayoutOf(f, SessionSections(s, SESS_HEADER)))
  {
    hide PayloadW, PayloadBytes, SessionSections, SessionOk;
    Enclosed(f, PayloadBytes(s));
    PayloadFinds(f, |f| - SESS_TRAILER, Walk(SESS_HEADER, []), s);
    assert [] + SessionSections(s, SESS_HEADER) == SessionSections(s, SESS_HEADER);
  }

  lemma ParseAccepts(f: Bytes)
    ensures Parse(f).Some? <==>
      HeaderOk(f) && exists s :: SessionOk(s) && f[SESS_HEADER..|f| - SESS_TRAILER] == PayloadBytes(s)
  {
    if Parse(f).Some? {
      var s := ParseSound(f);
    }
    if HeaderOk(f) {
      forall s | SessionOk(s) && f[SESS_HEADER..|f| - SESS_TRAILER] == PayloadBytes(s) {
        ParseComplete(f, s);
      }
    }
  }

  // ---- The layout, spelled out ----

  function Vecs5<T>(a: T, b: T, c: T, d: T, e: T): List<T> {
    Snoc(Snoc(Snoc(Snoc(Snoc(Nil, a), b), c), d), e)
  }

  function Vecs7<T>(a: T, b: T, c: T, d: T, e: T, f: T, g: T): List<T> {
    Snoc(Snoc(Vecs5(a, b, c, d, e), f), g)
  }

  // The live state, or a checkpoint: token ids of four bytes, images of sixteen, five byte vectors,
  // each behind its count, and eight bytes more.
  lemma CheckpointLayout(kind: Kind, pre: Bytes, ids: Bytes, imgs: Bytes, gdn: Bytes, ple: Bytes, tails: Bytes, dead: Bytes, pos: Bytes, post: Bytes)
    requires !kind.Kv?
    ensures var r := Rec(pre, Vecs7(ids, imgs, gdn, ple, tails, dead, pos), post);
      && (RecOk(kind, r) <==>
            && pre == [] && |post| == 8 && |ids| % 4 == 0 && |ids| / 4 < TWO64 && |imgs| % 16 == 0 && |imgs| / 16 < TWO64
            && |gdn| < TWO64 && |ple| < TWO64 && |tails| < TWO64 && |dead| < TWO64 && |pos| < TWO64)
      && RecBytes(kind, r) == pre + (U64(|ids| / 4) + ids + U64(|imgs| / 16) + imgs + U64(|gdn|) + gdn + U64(|ple|) + ple
                                     + U64(|tails|) + tails + U64(|dead|) + dead + U64(|pos|) + pos) + post
  {
    hide U64;
    var r := Rec(pre, Vecs7(ids, imgs, gdn, ple, tails, dead, pos), post);
    var v2 := Snoc(Snoc(Nil, ids), imgs);
    var v5 := Snoc(Snoc(Snoc(v2, gdn), ple), tails);
    FirstTwo(kind, ids, imgs);
    Pushed(kind, v2, gdn, 2);
    Pushed(kind, Snoc(v2, gdn), ple, 3);
    Pushed(kind, Snoc(Snoc(v2, gdn), ple), tails, 4);
    Pushed(kind, v5, dead, 5);
    Pushed(kind, Snoc(v5, dead), pos, 6);
  }

  lemma FirstTwo(kind: Kind, ids: Bytes, imgs: Bytes)
    requires !kind.Kv?
    ensures var v := Snoc(Snoc(Nil, ids), imgs);
      && Len(v) == 2 && VecsBytes(kind, v) == U64(|ids| / 4) + ids + U64(|imgs| / 16) + imgs
      && (VecsOk(kind, v) <==> |ids| % 4 == 0 && |ids| / 4 < TWO64 && |imgs| % 16 == 0 && |imgs| / 16 < TWO64)
  {
    hide U64;
    var one := Snoc(Nil, ids);
    assert Len(one) == 1 && VecsBytes(kind, one) == U64(|ids| / 4) + ids;
    assert VecsOk(kind, one) <==> VecOk(kind, 0, ids);
  }

  lemma Pushed(kind: Kind, vecs: List<Bytes>, v: Bytes, n: nat)
    requires Len(vecs) == n && (kind.Kv? || n >= 2)
    ensures Len(Snoc(vecs, v)) == n + 1 && VecsBytes(kind, Snoc(vecs, v)) == VecsBytes(kind, vecs) + U64(|v|) + v
    ensures VecsOk(kind, Snoc(vecs, v)) <==> VecsOk(kind, vecs) && |v| < TWO64
  {
    hide U64;
    assert VecsBytes(kind, vecs) + U64(|v|) + v == VecsBytes(kind, vecs) + (U64(|v|) + v);
  }

  // A layer of the K/V cache: a head of 56 bytes and five byte vectors, each behind its length.
  lemma LayerLayout(pre: Bytes, k: Bytes, v: Bytes, kScale: Bytes, vScale: Bytes, pooled: Bytes, post: Bytes)
    ensures var r := Rec(pre, Vecs5(k, v, kScale, vScale, pooled), post);
      && (RecOk(Kv, r) <==> |pre| == 56 && post == [] && |k| < TWO64 && |v| < TWO64 && |kScale| < TWO64 && |vScale| < TWO64 && |pooled| < TWO64)
      && RecBytes(Kv, r) == pre + (U64(|k|) + k + U64(|v|) + v + U64(|kScale|) + kScale + U64(|vScale|) + vScale + U64(|pooled|) + pooled) + post
  {
    hide U64;
    var none: List<Bytes> := Nil;
    Pushed(Kv, none, k, 0);
    assert VecsBytes(Kv, Nil) + U64(|k|) + k == U64(|k|) + k;
    Pushed(Kv, Snoc(none, k), v, 1);
    Pushed(Kv, Snoc(Snoc(none, k), v), kScale, 2);
    Pushed(Kv, Snoc(Snoc(Snoc(none, k), v), kScale), vScale, 3);
    Pushed(Kv, Snoc(Snoc(Snoc(Snoc(none, k), v), kScale), vScale), pooled, 4);
  }

  // Every record of a session is of one of the two forms, and its geometry is 168 bytes.
  lemma LayoutComplete(kind: Kind, r: Rec)
    requires RecOk(kind, r)
    ensures if kind.Kv? then exists a, b, c, d, e :: r.vecs == Vecs5(a, b, c, d, e)
            else exists a, b, c, d, e, f, g :: r.vecs == Vecs7(a, b, c, d, e, f, g)
  {
    hide VecsOk;
    if kind.Kv? {
      var a, b, c, d, e := Five(r.vecs);
    } else {
      assert Len(r.vecs) == 7;
      assert Len(r.vecs.init) == 6;
      assert Len(r.vecs.init.init) == 5;
      var f, g := r.vecs.init.last, r.vecs.last;
      var a, b, c, d, e := Five(r.vecs.init.init);
      assert r.vecs == Vecs7(a, b, c, d, e, f, g);
    }
  }

  lemma Five<T>(l: List<T>) returns (a: T, b: T, c: T, d: T, e: T)
    requires Len(l) == 5
    ensures l == Vecs5(a, b, c, d, e)
  {
    var l3 := l.init.init;
    assert Len(l3) == 3;
    var l1 := l3.init.init;
    assert Len(l1) == 1;
    a, b, c, d, e := l1.last, l3.init.last, l3.last, l.init.last, l.last;
    assert l1.init == Nil;
  }

  lemma GeometryLength(s: Session)
    ensures SessionOk(s) ==> |s.geometry| == 168
  {
  }
}

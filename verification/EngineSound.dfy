/**
 Whatever engine delta the receiver accepts, the file it rebuilds is a session file: its payload is
 the bytes of a session (SessGrammar), so ParseLayout accepts it with the replica's own sections.
 */
module EngineSound {
  import opened Bytes
  import opened Options
  import opened Hashing
  import opened SessFile
  import opened SessGrammar
  import opened SectionNames
  import opened Delta
  import opened Replica
  import opened EngineDelta

  function Asm(b: Reb): Option<Bytes>
    requires b.Reb?
  {
    Assemble(b.items, b.frames, b.secs)
  }

  // The sections of a replica by name, with their places in the assembled file.
  function ItemSecs(items: seq<RItem>): seq<Sec> {
    if items == [] then [] else
      var init, it := items[..|items| - 1], items[|items| - 1];
      ItemSecs(init) + if it.section == "" then [] else [Sec(it.section, Total(init), it.len)]
  }

  predicate FieldsOk(out: seq<Section>) {
    forall i :: 0 <= i < |out| ==> FieldOk(out[i].field)
  }

  function NamedSecs(out: seq<Section>): (r: seq<Sec>)
    requires FieldsOk(out)
    ensures |r| == |out|
    ensures forall i :: 0 <= i < |r| ==> r[i] == Sec(NameOf(out[i].field), out[i].off, out[i].len)
  {
    seq(|out|, i requires 0 <= i < |out| => Sec(NameOf(out[i].field), out[i].off, out[i].len))
  }

  // The header frame comes first; a last frame ends where frames.bin does.
  predicate FramesOk(b: Reb)
    requires b.Reb?
  {
    && b.items != [] && b.items[0].section == "" && b.items[0].frame == 0 && SESS_HEADER <= b.items[0].len
    && SESS_HEADER <= |b.frames|
    && (forall i :: 0 < i < |b.items| && b.items[i].section == "" ==> SESS_HEADER <= b.items[i].frame)
    && EndsFrames(b.items, b.frames)
  }

  // A section once written is no longer offered by the base.
  predicate Spent(items: seq<RItem>, have: map<Name, nat>) {
    forall i :: 0 <= i < |items| && items[i].section != "" ==> items[i].section !in have
  }

  predicate RebOk(b: Reb, fd: Field) {
    b.Reb? ==>
      && Spent(b.items, b.have)
      && Asm(b).Some? && Total(b.items) == b.size && FramesOk(b)
      && Tidy(b.out, SESS_HEADER, b.size) && SESS_HEADER <= b.size && AllBefore(b.out, fd)
      && FieldsOk(b.out) && ItemSecs(b.items) == NamedSecs(b.out)
  }

  // r is b with the bytes x and the sections secs added to the file.
  predicate MovedB(b: Reb, x: Bytes, secs: seq<Section>, r: Reb) {
    && b.Reb? && r.Reb? && Asm(b).Some? && Asm(r) == Some(Asm(b).value + x)
    && r.out == b.out + secs && r.size == b.size + |x|
  }

  lemma MovedBTwice(b: Reb, x: Bytes, sx: seq<Section>, m: Reb, y: Bytes, sy: seq<Section>, r: Reb)
    requires MovedB(b, x, sx, m) && MovedB(m, y, sy, r)
    ensures MovedB(b, x + y, sx + sy, r)
  {
    hide Asm;
    assert b.out + sx + sy == b.out + (sx + sy);
    assert Asm(b).value + x + y == Asm(b).value + (x + y);
  }

  lemma MovedBThen(b: Reb, x: Bytes, m: Reb, y: Bytes, sy: seq<Section>, r: Reb)
    requires MovedB(b, x, [], m) && MovedB(m, y, sy, r)
    ensures MovedB(b, x + y, sy, r)
  {
    MovedBTwice(b, x, [], m, y, sy, r);
    assert [] + sy == sy;
  }

  lemma ItemSecsPush(items: seq<RItem>, it: RItem)
    ensures ItemSecs(items + [it]) == ItemSecs(items) + if it.section == "" then [] else [Sec(it.section, Total(items), it.len)]
  {
    assert (items + [it])[..|items|] == items;
  }

  lemma {:induction false} ItemNamed(items: seq<RItem>, i: nat)
    requires i < |items| && items[i].section != ""
    ensures exists j :: 0 <= j < |ItemSecs(items)| && ItemSecs(items)[j].name == items[i].section
  {
    var n := |items| - 1;
    var a := ItemSecs(items[..n]);
    if i < n {
      ItemNamed(items[..n], i);
      var j :| 0 <= j < |a| && a[j].name == items[..n][i].section;
      assert ItemSecs(items)[j] == a[j];
    } else {
      assert ItemSecs(items)[|a|].name == items[i].section;
    }
  }

  lemma SplitLast<T>(s: seq<T>)
    requires s != []
    ensures s == s[..|s| - 1] + [s[|s| - 1]]
  {
  }

  predicate EndsFrames(items: seq<RItem>, frames: Bytes) {
    items != [] && items[|items| - 1].section == "" ==> items[|items| - 1].frame + items[|items| - 1].len == |frames|
  }

  // A frame extends the file by its bytes, and adds no section.
  lemma {:induction false} FrameAssembles(items: seq<RItem>, frames: Bytes, secs: map<Name, Bytes>, x: Bytes)
    requires Assemble(items, frames, secs).Some? && EndsFrames(items, frames)
    ensures Assemble(FrameItems(items, |frames|, |x|), frames + x, secs) == Some(Assemble(items, frames, secs).value + x)
  {
    hide Assemble, PieceOf;
    if items != [] && items[|items| - 1].section == "" {
      SplitLast(items);
      FrameJoins(items[..|items| - 1], items[|items| - 1], frames, secs, x);
    } else {
      MoreFrames(items, frames, secs, x);
      AssemblePush(items, RItem("", |x|, |frames|), frames + x, secs);
      NewPiece(frames, x, secs);
    }
  }

  lemma {:induction false} FrameSecs(items: seq<RItem>, at: nat, n: nat)
    ensures Total(FrameItems(items, at, n)) == Total(items) + n
    ensures ItemSecs(FrameItems(items, at, n)) == ItemSecs(items)
  {
    hide Total, ItemSecs;
    if items != [] && items[|items| - 1].section == "" {
      var init, last := items[..|items| - 1], items[|items| - 1];
      SplitLast(items);
      TotalPush(init, last);
      TotalPush(init, last.(len := last.len + n));
      ItemSecsPush(init, last);
      ItemSecsPush(init, last.(len := last.len + n));
    } else {
      TotalPush(items, RItem("", n, at));
      ItemSecsPush(items, RItem("", n, at));
    }
  }

  lemma {:induction false} FrameJoins(init: seq<RItem>, last: RItem, frames: Bytes, secs: map<Name, Bytes>, x: Bytes)
    requires last.section == "" && last.frame + last.len == |frames| && Assemble(init + [last], frames, secs).Some?
    ensures Assemble(init + [last.(len := last.len + |x|)], frames + x, secs) == Some(Assemble(init + [last], frames, secs).value + x)
  {
    hide Assemble, PieceOf;
    AssemblePush(init, last, frames, secs);
    MoreFrames(init, frames, secs, x);
    AssemblePush(init, last.(len := last.len + |x|), frames + x, secs);
    FramePiece(last, frames, x, secs);
    Assoc3(Assemble(init, frames, secs).value, PieceOf(last, frames, secs).value, x);
  }

  lemma {:induction false} MoreFrames(items: seq<RItem>, frames: Bytes, secs: map<Name, Bytes>, x: Bytes)
    requires Assemble(items, frames, secs).Some?
    ensures Assemble(items, frames + x, secs) == Assemble(items, frames, secs)
  {
    AssembleSame(items, frames, secs, x, secs);
  }

  lemma Assoc3(a: Bytes, b: Bytes, c: Bytes)
    ensures a + b + c == a + (b + c)
  {
  }

  lemma FramePiece(it: RItem, frames: Bytes, x: Bytes, secs: map<Name, Bytes>)
    requires it.section == "" && it.frame + it.len == |frames|
    ensures PieceOf(it, frames, secs).Some?
    ensures PieceOf(it.(len := it.len + |x|), frames + x, secs) == Some(PieceOf(it, frames, secs).value + x)
  {
    assert (frames + x)[it.frame..it.frame + it.len + |x|] == frames[it.frame..] + x;
    assert frames[it.frame..it.frame + it.len] == frames[it.frame..];
  }

  lemma NewPiece(frames: Bytes, x: Bytes, secs: map<Name, Bytes>)
    ensures PieceOf(RItem("", |x|, |frames|), frames + x, secs) == Some(x)
  {
    assert (frames + x)[|frames|..|frames| + |x|] == x;
  }

  lemma FrameMoved(b: Reb, x: Bytes, fd: Field)
    requires b.Reb? && RebOk(b, fd)
    ensures RebOk(Frame(b, x), fd) && MovedB(b, x, [], Frame(b, x))
  {
    hide Assemble, Total, ItemSecs, FieldOk, Before;
    FrameAssembles(b.items, b.frames, b.secs, x);
    FrameSecs(b.items, |b.frames|, |x|);
  }

  // The next field's section is not among those already written.
  lemma FreshName(b: Reb, fd: Field, i: nat)
    requires b.Reb? && RebOk(b, fd) && FieldOk(fd) && i < |b.items| && b.items[i].section != ""
    ensures b.items[i].section != NameOf(fd)
  {
    hide Assemble, Total, ItemSecs, FramesOk, Tidy, NameOf;
    ItemNamed(b.items, i);
    var j :| 0 <= j < |ItemSecs(b.items)| && ItemSecs(b.items)[j].name == b.items[i].section;
    if b.items[i].section == NameOf(fd) {
      NameOfInjective(b.out[j].field, fd);
    }
  }

  // Writing a section extends the file by its content.
  lemma SectionMoved(b: Reb, fd: Field, v: Bytes, r: Reb)
    requires b.Reb? && RebOk(b, fd) && FieldOk(fd) && r.Reb?
    requires r.items == b.items + [RItem(NameOf(fd), |v|, 0)] && r.secs == b.secs[NameOf(fd) := v] && r.frames == b.frames
    requires r.size == b.size + |v| && r.out == b.out + [Section(fd, b.size, |v|)] && r.have == b.have - {NameOf(fd)}
    ensures Spent(r.items, r.have)
    ensures MovedB(b, v, [Section(fd, b.size, |v|)], r)
    ensures Total(r.items) == r.size && FramesOk(r) && FieldsOk(r.out) && ItemSecs(r.items) == NamedSecs(r.out)
  {
    hide Assemble, Total, ItemSecs, FieldOk, Before, NameOf, Have;
    var name := NameOf(fd);
    assert name != "" && ValidKey(name) by { NameOfValid(fd); }
    forall i | 0 <= i < |b.items| && b.items[i].section != "" ensures b.items[i].section != name {
      FreshName(b, fd, i);
    }
    AssembleSame(b.items, b.frames, b.secs, [], r.secs);
    assert b.frames + [] == b.frames;
    AssemblePush(b.items, RItem(name, |v|, 0), r.frames, r.secs);
    TotalPush(b.items, RItem(name, |v|, 0));
    assert v[..|v|] == v;
    ItemSecsPush(b.items, RItem(name, |v|, 0));
    NamedPush(b.out, Section(fd, b.size, |v|));
  }

  lemma NamedPush(out: seq<Section>, x: Section)
    requires FieldsOk(out) && FieldOk(x.field)
    ensures FieldsOk(out + [x]) && NamedSecs(out + [x]) == NamedSecs(out) + [Sec(NameOf(x.field), x.off, x.len)]
  {
  }

  lemma SectionFile(s: Bytes, b: Reb, fd: Field, keep: nat, size: nat) returns (v: Bytes)
    requires InS(s, b) && FieldOk(fd) && SectionB(s, b, fd, keep, size).Reb?
    ensures b.Reb? && |v| == size
    ensures var r := SectionB(s, b, fd, keep, size);
      && v == r.secs[NameOf(fd)] && r.items == b.items + [RItem(NameOf(fd), |v|, 0)]
      && r.secs == b.secs[NameOf(fd) := v] && r.frames == b.frames
      && r.size == b.size + |v| && r.out == b.out + [Section(fd, b.size, |v|)] && r.have == b.have - {NameOf(fd)}
  {
    hide NameOf;
    v := SectionB(s, b, fd, keep, size).secs[NameOf(fd)];
  }

  // A count and a section after it.
  lemma CountedMoved(b: Reb, n: nat, fd: Field, m: Reb, v: Bytes, r: Reb)
    requires b.Reb? && RebOk(b, fd) && FieldOk(fd) && m.Reb? && r.Reb? && n < TWO64
    requires var fr := Frame(b, U64(n)); m == fr.(p := m.p)
    requires r.items == m.items + [RItem(NameOf(fd), |v|, 0)] && r.secs == m.secs[NameOf(fd) := v] && r.frames == m.frames
    requires r.size == m.size + |v| && r.out == m.out + [Section(fd, m.size, |v|)] && r.have == m.have - {NameOf(fd)}
    ensures MovedB(b, U64(n) + v, [Section(fd, b.size + 8, |v|)], r)
    ensures RebOk(r, Field(fd.kind, fd.i, fd.j + 1))
  {
    hide Assemble, Total, ItemSecs, NameOf, FrameItems, FieldOk;
    var fr := Frame(b, U64(n));
    FrameMoved(b, U64(n), fd);
    assert RebOk(m, fd) && MovedB(b, U64(n), [], m) by { SameButPos(fr, m, fd); }
    SectionMoved(m, fd, v, r);
    MovedBThen(b, U64(n), m, v, [Section(fd, m.size, |v|)], r);
    TidyPush(b.out, SESS_HEADER, b.size, fd, |v|);
    assert m.out == b.out;
  }

  lemma SameButPos(fr: Reb, m: Reb, fd: Field)
    requires fr.Reb? && m.Reb? && m == fr.(p := m.p) && RebOk(fr, fd)
    ensures RebOk(m, fd) && Asm(m) == Asm(fr)
  {
  }

  lemma WholeMoved(s: Bytes, b: Reb, fd: Field, limit: nat) returns (v: Bytes)
    requires InS(s, b) && FieldOk(fd) && RebOk(b, fd) && WholeB(s, b, fd, limit).Reb?
    ensures b.Reb? && VecOk(fd.kind, fd.j, v)
    ensures MovedB(b, VecBytes(fd.kind, fd.j, v), [Section(fd, b.size + 8, |v|)], WholeB(s, b, fd, limit))
    ensures RebOk(WholeB(s, b, fd, limit), Field(fd.kind, fd.i, fd.j + 1))
  {
    hide RebOk, NameOf, MovedB, SectionB, Elem, FieldOk;
    var elem := Elem(fd.kind, fd.j);
    var (b1, n) := CountB(s, b);
    Pow256Values();
    Multiple(n, elem);
    v := SectionFile(s, b1, fd, 0, n * elem);
    CountedMoved(b, n, fd, b1, v, WholeB(s, b, fd, limit));
  }

  lemma HashesKeep(h: Hashes, s: Bytes, b: Reb, name: Name, keep: nat, size: nat, base: seq<Word64>)
    requires InS(s, b) && HashesB(h, s, b, name, keep, size, base).Reb?
    ensures b.Reb?
    ensures var r := HashesB(h, s, b, name, keep, size, base); r == b.(p := r.p, chunks := r.chunks)
  {
  }

  lemma KvMoved(h: Hashes, s: Bytes, b: Reb, fd: Field, limit: nat) returns (v: Bytes)
    requires InS(s, b) && FieldOk(fd) && fd.kind.Kv? && RebOk(b, fd) && KvB(h, s, b, fd, limit).Reb?
    ensures b.Reb? && VecOk(fd.kind, fd.j, v)
    ensures MovedB(b, VecBytes(fd.kind, fd.j, v), [Section(fd, b.size + 8, |v|)], KvB(h, s, b, fd, limit))
    ensures RebOk(KvB(h, s, b, fd, limit), Field(fd.kind, fd.i, fd.j + 1))
  {
    hide RebOk, NameOf, MovedB, SectionB, HashesB, FieldOk;
    var size, keep := Word(s[b.p..b.p + 8]), Word(s[b.p + 8..b.p + 16]);
    var fr := Frame(b, U64(size));
    var m := fr.(p := b.p + 16);
    var b1 := SectionB(s, m, fd, keep, size);
    var base := ChunksOf(b.chunks, NameOf(fd));
    Pow256Values();
    HashesKeep(h, s, b1, NameOf(fd), keep, size, base);
    v := SectionFile(s, m, fd, keep, size);
    CountedMoved(b, size, fd, m, v, KvB(h, s, b, fd, limit));
  }

  lemma FieldMoved(h: Hashes, s: Bytes, b: Reb, fd: Field, limit: nat) returns (v: Bytes)
    requires InS(s, b) && FieldOk(fd) && RebOk(b, fd) && FieldB(h, s, b, fd, limit).Reb?
    ensures b.Reb? && VecOk(fd.kind, fd.j, v)
    ensures MovedB(b, VecBytes(fd.kind, fd.j, v), [Section(fd, b.size + 8, |v|)], FieldB(h, s, b, fd, limit))
    ensures RebOk(FieldB(h, s, b, fd, limit), Field(fd.kind, fd.i, fd.j + 1))
  {
    hide RebOk, MovedB, KvB, WholeB;
    if fd.kind.Kv? {
      v := KvMoved(h, s, b, fd, limit);
    } else {
      v := WholeMoved(s, b, fd, limit);
    }
  }

  lemma {:induction false} FieldsMoved(h: Hashes, s: Bytes, b: Reb, kind: Kind, i: nat, k: nat, limit: nat) returns (vecs: List<Bytes>)
    requires InS(s, b) && RecIndexOk(kind, i) && k <= PartCount(kind) && RebOk(b, Field(kind, i, 0))
    requires FieldsB(h, s, b, kind, i, k, limit).Reb?
    ensures b.Reb? && Len(vecs) == k && VecsOk(kind, vecs)
    ensures MovedB(b, VecsBytes(kind, vecs), VecsSections(kind, i, vecs, b.size), FieldsB(h, s, b, kind, i, k, limit))
    ensures RebOk(FieldsB(h, s, b, kind, i, k, limit), Field(kind, i, k))
  {
    hide RebOk, MovedB, FieldB;
    vecs := Nil;
    if k == 0 {
      StayB(b, Field(kind, i, 0));
    } else {
      var m := FieldsB(h, s, b, kind, i, k - 1, limit);
      if m.Broken? {
        FieldBroken(h, s, Field(kind, i, k - 1), limit);
      }
      var init := FieldsMoved(h, s, b, kind, i, k - 1, limit);
      var v := FieldMoved(h, s, m, Field(kind, i, k - 1), limit);
      var r := FieldsB(h, s, b, kind, i, k, limit);
      MovedBTwice(b, VecsBytes(kind, init), VecsSections(kind, i, init, b.size), m,
                  VecBytes(kind, k - 1, v), [Section(Field(kind, i, k - 1), m.size + 8, |v|)], r);
      SizeB(b, VecsBytes(kind, init), VecsSections(kind, i, init, b.size), m);
      vecs := Snoc(init, v);
    }
  }

  lemma StayB(b: Reb, fd: Field)
    requires b.Reb? && RebOk(b, fd)
    ensures MovedB(b, [], [], b)
  {
    hide Assemble;
    assert Asm(b).value + [] == Asm(b).value && b.out + [] == b.out;
  }

  lemma SizeB(b: Reb, x: Bytes, secs: seq<Section>, r: Reb)
    requires MovedB(b, x, secs, r)
    ensures b.Reb? && r.Reb? && r.size == b.size + |x|
  {
  }

  lemma FieldBroken(h: Hashes, s: Bytes, fd: Field, limit: nat)
    requires FieldOk(fd)
    ensures FieldB(h, s, Broken, fd, limit).Broken?
  {
  }

  lemma SkipMovedB(s: Bytes, b: Reb, n: nat, fd: Field)
    requires InS(s, b) && RebOk(b, fd) && SkipB(s, b, n).Reb?
    ensures b.Reb? && b.p + n <= |s| && MovedB(b, s[b.p..b.p + n], [], SkipB(s, b, n)) && RebOk(SkipB(s, b, n), fd)
  {
    hide RebOk, FrameItems, Asm;
    FrameMoved(b, s[b.p..b.p + n], fd);
    SameButPos(Frame(b, s[b.p..b.p + n]), SkipB(s, b, n), fd);
  }

  lemma CountMovedB(s: Bytes, b: Reb, fd: Field)
    requires InS(s, b) && RebOk(b, fd) && CountB(s, b).0.Reb?
    ensures b.Reb? && CountB(s, b).1 < TWO64
    ensures MovedB(b, U64(CountB(s, b).1), [], CountB(s, b).0) && RebOk(CountB(s, b).0, fd)
  {
    hide RebOk, FrameItems, Asm;
    Pow256Values();
    var n := Word(s[b.p..b.p + 8]);
    FrameMoved(b, U64(n), fd);
    SameButPos(Frame(b, U64(n)), CountB(s, b).0, fd);
  }

  lemma LaterB(b: Reb, a: Field, c: Field)
    requires RebOk(b, a) && (a == c || Before(a, c))
    ensures RebOk(b, c)
  {
    hide Assemble, Total, ItemSecs, FramesOk, Tidy;
  }

  lemma RecMovedB(h: Hashes, s: Bytes, b: Reb, kind: Kind, i: nat, limit: nat) returns (r: Rec)
    requires InS(s, b) && RecIndexOk(kind, i) && RebOk(b, Field(kind, i, 0)) && RecB(h, s, b, kind, i, limit).Reb?
    ensures b.Reb? && RecOk(kind, r)
    ensures MovedB(b, RecBytes(kind, r), RecSections(kind, i, r, b.size), RecB(h, s, b, kind, i, limit))
    ensures RebOk(RecB(h, s, b, kind, i, limit), Field(kind, i + 1, 0))
  {
    hide RebOk, MovedB, FieldsB, SkipB, VecsOk, VecsBytes, VecsSections, Len;
    var n, fd := PartCount(kind), Field(kind, i, 0);
    if kind.Kv? {
      var b1 := SkipB(s, b, 56);
      if b1.Broken? {
        FieldsBroken(h, s, kind, i, n, limit);
      }
      SkipMovedB(s, b, 56, fd);
      var vecs := FieldsMoved(h, s, b1, kind, i, n, limit);
      r := Rec(s[b.p..b.p + 56], vecs, []);
      MovedBThen(b, r.pre, b1, VecsBytes(kind, vecs), VecsSections(kind, i, vecs, b1.size), RecB(h, s, b, kind, i, limit));
      SizeB(b, r.pre, [], b1);
      assert RecBytes(kind, r) == r.pre + VecsBytes(kind, vecs);
    } else {
      var b2 := FieldsB(h, s, b, kind, i, n, limit);
      if b2.Broken? {
        SkipBroken(s, 8);
      }
      var vecs := FieldsMoved(h, s, b, kind, i, n, limit);
      SkipMovedB(s, b2, 8, Field(kind, i, n));
      r := Rec([], vecs, s[b2.p..b2.p + 8]);
      var secs := VecsSections(kind, i, vecs, b.size);
      MovedBTwice(b, VecsBytes(kind, vecs), secs, b2, r.post, [], RecB(h, s, b, kind, i, limit));
      assert secs + [] == secs;
      assert [] + VecsBytes(kind, vecs) == VecsBytes(kind, vecs);
    }
    LaterB(RecB(h, s, b, kind, i, limit), Field(kind, i, n), Field(kind, i + 1, 0));
  }

  lemma SkipBroken(s: Bytes, n: nat)
    ensures SkipB(s, Broken, n).Broken?
  {
  }

  lemma {:induction false} FieldsBroken(h: Hashes, s: Bytes, kind: Kind, i: nat, k: nat, limit: nat)
    requires RecIndexOk(kind, i) && k <= PartCount(kind)
    ensures FieldsB(h, s, Broken, kind, i, k, limit).Broken?
  {
    if k > 0 {
      FieldsBroken(h, s, kind, i, k - 1, limit);
    }
  }

  lemma RecBroken(h: Hashes, s: Bytes, kind: Kind, i: nat, limit: nat)
    requires RecIndexOk(kind, i)
    ensures RecB(h, s, Broken, kind, i, limit).Broken?
  {
    FieldsBroken(h, s, kind, i, PartCount(kind), limit);
  }

  lemma RecsStepB(b: Reb, kind: Kind, init: List<Rec>, m: Reb, r: Rec, z: Reb)
    requires b.Reb? && MovedB(b, RecsBytes(kind, init), RecsSections(kind, init, b.size), m)
    requires m.Reb? && MovedB(m, RecBytes(kind, r), RecSections(kind, Len(init), r, m.size), z)
    ensures MovedB(b, RecsBytes(kind, Snoc(init, r)), RecsSections(kind, Snoc(init, r), b.size), z)
  {
    hide Asm, RecBytes, RecSections;
    MovedBTwice(b, RecsBytes(kind, init), RecsSections(kind, init, b.size), m,
                RecBytes(kind, r), RecSections(kind, Len(init), r, m.size), z);
  }

  lemma {:induction false} RecsMovedB(h: Hashes, s: Bytes, b: Reb, kind: Kind, n: nat, limit: nat) returns (rs: List<Rec>)
    requires InS(s, b) && n <= TWO64 && !kind.Live? && RebOk(b, Field(kind, 0, 0)) && RecsB(h, s, b, kind, n, limit).Reb?
    ensures b.Reb? && Len(rs) == n && RecsOk(kind, rs)
    ensures MovedB(b, RecsBytes(kind, rs), RecsSections(kind, rs, b.size), RecsB(h, s, b, kind, n, limit))
    ensures RebOk(RecsB(h, s, b, kind, n, limit), Field(kind, n, 0))
  {
    hide RebOk, MovedB, RecB, RecOk, RecBytes, RecSections;
    rs := Nil;
    if n == 0 {
      StayB(b, Field(kind, 0, 0));
    } else {
      var m := RecsB(h, s, b, kind, n - 1, limit);
      if m.Broken? {
        RecBroken(h, s, kind, n - 1, limit);
      }
      var init := RecsMovedB(h, s, b, kind, n - 1, limit);
      var r := RecMovedB(h, s, m, kind, n - 1, limit);
      RecsStepB(b, kind, init, m, r, RecsB(h, s, b, kind, n, limit));
      rs := Snoc(init, r);
    }
  }

  lemma GroupMovedB(h: Hashes, s: Bytes, b: Reb, kind: Kind, most: nat, limit: nat) returns (rs: List<Rec>)
    requires InS(s, b) && !kind.Live? && most <= TWO64 && RebOk(b, Field(kind, 0, 0)) && GroupB(h, s, b, kind, most, limit).Reb?
    ensures b.Reb? && Len(rs) < TWO64 && Len(rs) <= most && RecsOk(kind, rs)
    ensures MovedB(b, GroupBytes(kind, rs), RecsSections(kind, rs, b.size + 8), GroupB(h, s, b, kind, most, limit))
    ensures RebOk(GroupB(h, s, b, kind, most, limit), Field(kind, TWO64, 0))
  {
    hide RebOk, MovedB, RecsB, CountB, RecsOk, RecsBytes, RecsSections, Len;
    var (b1, n) := CountB(s, b);
    CountMovedB(s, b, Field(kind, 0, 0));
    rs := RecsMovedB(h, s, b1, kind, n, limit);
    SizeB(b, U64(n), [], b1);
    MovedBThen(b, U64(n), b1, RecsBytes(kind, rs), RecsSections(kind, rs, b1.size), GroupB(h, s, b, kind, most, limit));
    LaterB(GroupB(h, s, b, kind, most, limit), Field(kind, n, 0), Field(kind, TWO64, 0));
  }

  // The file rebuilt from an accepted payload is what stood before it and a session's bytes.
  lemma PayloadMovedB(h: Hashes, s: Bytes, b: Reb, limit: nat) returns (ss: Session)
    requires InS(s, b) && RebOk(b, Field(Live, 0, 0)) && PayloadB(h, s, b, limit).Reb?
    ensures b.Reb? && SessionOk(ss) && Len(ss.ckpts) <= 64 && Len(ss.layers) <= 1024
    ensures MovedB(b, PayloadBytes(ss), SessionSections(ss, b.size), PayloadB(h, s, b, limit))
    ensures RebOk(PayloadB(h, s, b, limit), Field(Kv, TWO64, 0))
  {
    hide RebOk, MovedB, RecB, GroupB, SkipB, RecOk, RecsOk, RecBytes, RecsBytes, GroupBytes, RecSections, RecsSections, Len;
    var b1 := SkipB(s, b, GEOMETRY);
    var b2 := RecB(h, s, b1, Live, 0, limit);
    var b3 := GroupB(h, s, b2, Ckpt, MAX_CKPTS, limit);
    var b4 := GroupB(h, s, b3, Kv, MAX_LAYERS, limit);
    BrokenGroups(h, s, limit);
    SkipMovedB(s, b, GEOMETRY, Field(Live, 0, 0));
    var live := RecMovedB(h, s, b1, Live, 0, limit);
    LaterB(b2, Field(Live, 1, 0), Field(Ckpt, 0, 0));
    var ckpts := GroupMovedB(h, s, b2, Ckpt, MAX_CKPTS, limit);
    LaterB(b3, Field(Ckpt, TWO64, 0), Field(Kv, 0, 0));
    var layers := GroupMovedB(h, s, b3, Kv, MAX_LAYERS, limit);
    ss := Session(s[b.p..b.p + GEOMETRY], live, ckpts, layers);
    FourB(b, ss.geometry, b1, RecBytes(Live, live), RecSections(Live, 0, live, b1.size), b2,
          GroupBytes(Ckpt, ckpts), RecsSections(Ckpt, ckpts, b2.size + 8), b3,
          GroupBytes(Kv, layers), RecsSections(Kv, layers, b3.size + 8), b4);
  }

  lemma BrokenGroups(h: Hashes, s: Bytes, limit: nat)
    ensures RecB(h, s, Broken, Live, 0, limit).Broken?
    ensures GroupB(h, s, Broken, Ckpt, MAX_CKPTS, limit).Broken?
    ensures GroupB(h, s, Broken, Kv, MAX_LAYERS, limit).Broken?
  {
    RecBroken(h, s, Live, 0, limit);
  }

  lemma FourB(b: Reb, x: Bytes, b1: Reb, y: Bytes, sy: seq<Section>, b2: Reb,
              z: Bytes, sz: seq<Section>, b3: Reb, u: Bytes, su: seq<Section>, b4: Reb)
    requires MovedB(b, x, [], b1) && MovedB(b1, y, sy, b2) && MovedB(b2, z, sz, b3) && MovedB(b3, u, su, b4)
    ensures MovedB(b, x + y + z + u, sy + sz + su, b4)
    ensures b.Reb? && b1.Reb? && b2.Reb? && b3.Reb?
    ensures b1.size == b.size + |x| && b2.size == b1.size + |y| && b3.size == b2.size + |z|
  {
    hide Asm;
    MovedBThen(b, x, b1, y, sy, b2);
    MovedBTwice(b, x + y, sy, b2, z, sz, b3);
    MovedBTwice(b, x + y + z, sy + sz, b3, u, su, b4);
  }

  // ---- The rebuilt file ----

  lemma StartOk(h: Hashes, d: Disk, hd: EHeader)
    requires Published(d)
    ensures var b := StartReb(h, d, hd);
      && b.Reb? && b.p == ENGINE_HEADER && RebOk(b, Field(Live, 0, 0)) && b.size == SESS_HEADER && b.out == []
      && Asm(b) == Some(SessHeaderBytes(h, hd.model, hd.config, 0))
  {
    hide SessHeaderBytes, Have, Assemble, Total, ItemSecs;
    var x := SessHeaderBytes(h, hd.model, hd.config, 0);
    NoItems(d.secs);
    FrameAssembles([], [], d.secs, x);
    FrameSecs([], 0, SESS_HEADER);
    assert [] + x == x;
    assert NamedSecs([]) == [];
  }

  lemma NoItems(secs: map<Name, Bytes>)
    ensures Assemble([], [], secs) == Some([]) && Total([]) == 0 && ItemSecs([]) == []
  {
  }

  // Setting the payload length in the header frame changes the file's first bytes only.
  lemma {:induction false} HeaderSet(items: seq<RItem>, frames: Bytes, secs: map<Name, Bytes>, hdr: Bytes)
    requires items != [] && items[0].section == "" && items[0].frame == 0 && SESS_HEADER <= items[0].len
    requires SESS_HEADER <= |frames| && |hdr| == SESS_HEADER
    requires forall i :: 0 < i < |items| && items[i].section == "" ==> SESS_HEADER <= items[i].frame
    requires Assemble(items, frames, secs).Some?
    ensures SESS_HEADER <= |Assemble(items, frames, secs).value|
    ensures Assemble(items, hdr + frames[SESS_HEADER..], secs) == Some(hdr + Assemble(items, frames, secs).value[SESS_HEADER..])
  {
    hide Total, PieceOf;
    var n := |items| - 1;
    var it, frames' := items[n], hdr + frames[SESS_HEADER..];
    if n == 0 {
      assert items[..0] == [];
      HeaderPiece(it, frames, secs, hdr);
    } else {
      HeaderSet(items[..n], frames, secs, hdr);
      LaterPiece(it, frames, secs, hdr);
      TailAfter(hdr, Assemble(items[..n], frames, secs).value, PieceOf(it, frames, secs).value);
    }
  }

  lemma TailAfter(hdr: Bytes, a: Bytes, p: Bytes)
    requires SESS_HEADER <= |a|
    ensures hdr + a[SESS_HEADER..] + p == hdr + (a + p)[SESS_HEADER..]
  {
  }

  lemma HeaderPiece(it: RItem, frames: Bytes, secs: map<Name, Bytes>, hdr: Bytes)
    requires it.section == "" && it.frame == 0 && SESS_HEADER <= it.len && SESS_HEADER == |hdr| <= |frames|
    requires PieceOf(it, frames, secs).Some?
    ensures PieceOf(it, hdr + frames[SESS_HEADER..], secs) == Some(hdr + PieceOf(it, frames, secs).value[SESS_HEADER..])
    ensures [] + PieceOf(it, frames, secs).value == PieceOf(it, frames, secs).value
    ensures [] + PieceOf(it, hdr + frames[SESS_HEADER..], secs).value == PieceOf(it, hdr + frames[SESS_HEADER..], secs).value
  {
    var frames' := hdr + frames[SESS_HEADER..];
    assert frames'[0..it.len] == hdr + frames[0..it.len][SESS_HEADER..];
  }

  lemma LaterPiece(it: RItem, frames: Bytes, secs: map<Name, Bytes>, hdr: Bytes)
    requires SESS_HEADER == |hdr| <= |frames| && (it.section == "" ==> SESS_HEADER <= it.frame)
    ensures PieceOf(it, hdr + frames[SESS_HEADER..], secs) == PieceOf(it, frames, secs)
  {
    var frames' := hdr + frames[SESS_HEADER..];
    if it.section == "" && it.frame + it.len <= |frames| {
      assert frames'[it.frame..it.frame + it.len] == frames[it.frame..it.frame + it.len];
    }
  }

  lemma {:induction false} KeepHeld(items: seq<RItem>, frames: Bytes, secs: map<Name, Bytes>, have: map<Name, nat>)
    requires Spent(items, have) && Assemble(items, frames, secs).Some?
    ensures Assemble(items, frames, secs - have.Keys) == Assemble(items, frames, secs)
  {
    hide Assemble;
    AssembleSame(items, frames, secs, [], secs - have.Keys);
    assert frames + [] == frames;
  }

  // Every accepted engine delta leaves a replica of a session: header, payload, and the
  // replica's own sections.
  lemma RebuiltIsSession(h: Hashes, d: Disk, s: Bytes, wantSize: int, wantId: string) returns (ss: Session)
    requires PutEngine(h, d, s, wantSize, wantId).Rebuilt?
    ensures SessionOk(ss) && Len(ss.ckpts) <= 64 && Len(ss.layers) <= 1024
    ensures var d' := PutEngine(h, d, s, wantSize, wantId).disk;
      var st := d'.state.value;
      && st.saveId == wantId && st.size == wantSize
      && Published(d') && st.trailer && d'.frames.Some? && st.model == d.state.value.model && st.config == d.state.value.config
      && st.model < TWO64 && st.config < TWO64
      && st.size == SESS_HEADER + |PayloadBytes(ss)| + SESS_TRAILER < TWO63
      && Assemble(st.items, d'.frames.value, d'.secs)
           == Some(SessHeaderBytes(h, st.model, st.config, |PayloadBytes(ss)|) + PayloadBytes(ss))
      && FieldsOk(SessionSections(ss, SESS_HEADER))
      && ItemSecs(st.items) == NamedSecs(SessionSections(ss, SESS_HEADER))
  {
    hide RebOk, MovedB, PayloadB, StartReb, PayloadBytes, SessionSections, SessionOk, SessHeaderBytes, SaveIdString, Assemble, ItemSecs, Word;
    var hd, b := ReadEngineHeader(h, s).value, EngineReb(h, d, s);
    var b0 := StartReb(h, d, hd);
    StartOk(h, d, hd);
    assert |s| >= ENGINE_HEADER;
    ss := PayloadMovedB(h, s, b0, hd.fileSize);
    Pow256Values();
    assert hd.model < TWO64 && hd.config < TWO64 && hd.fileSize < TWO64 by { HeaderWords(h, s); }
    SessionAsm(b0, b, PayloadBytes(ss), SessionSections(ss, SESS_HEADER), SessHeaderBytes(h, hd.model, hd.config, 0));
    RebFacts(b);
    HeaderSet(b.items, b.frames, b.secs, SessHeaderBytes(h, hd.model, hd.config, |PayloadBytes(ss)|));
    KeepHeld(b.items, SessHeaderBytes(h, hd.model, hd.config, |PayloadBytes(ss)|) + b.frames[SESS_HEADER..], b.secs, b.have);
  }

  lemma HeaderWords(h: Hashes, s: Bytes)
    requires ReadEngineHeader(h, s).Some?
    ensures var hd := ReadEngineHeader(h, s).value;
      hd.model < TWO64 && hd.config < TWO64 && hd.fileSize < TWO64 && hd.base < TWO64 && hd.new_ < TWO64
  {
    Pow256Values();
  }

  lemma RebFacts(b: Reb)
    requires b.Reb? && RebOk(b, Field(Kv, TWO64, 0))
    ensures Spent(b.items, b.have) && FramesOk(b) && Asm(b).Some? && FieldsOk(b.out) && ItemSecs(b.items) == NamedSecs(b.out)
  {
  }

  lemma SessionAsm(b0: Reb, b: Reb, x: Bytes, secs: seq<Section>, hdr: Bytes)
    requires MovedB(b0, x, secs, b) && b0.out == [] && b0.size == SESS_HEADER == |hdr| && Asm(b0) == Some(hdr)
    ensures b.Reb? && Asm(b) == Some(hdr + x) && b.out == secs && b.size == SESS_HEADER + |x|
    ensures (hdr + x)[SESS_HEADER..] == x
  {
    hide Asm;
    assert [] + secs == secs;
  }

  // Two parsers agree: what an accepted engine delta materialises to, ParseLayout accepts, with
  // the same model and configuration and exactly the replica's sections.
  lemma TwoParsersAgree(h: Hashes, d: Disk, s: Bytes, wantSize: int, wantId: string, stale: Bytes)
    requires PutEngine(h, d, s, wantSize, wantId).Rebuilt?
    requires Materialized(h, PutEngine(h, d, s, wantSize, wantId).disk, stale).Some?
    ensures var st := PutEngine(h, d, s, wantSize, wantId).disk.state.value;
      var l := Parse(Materialized(h, PutEngine(h, d, s, wantSize, wantId).disk, stale).value);
      && l.Some? && l.value.model == st.model && l.value.config == st.config && l.value.size == st.size
      && FieldsOk(l.value.sections) && NamedSecs(l.value.sections) == ItemSecs(st.items)
  {
    hide PutEngine, Parse, PayloadBytes, SessionSections, SessionOk, SessHeaderBytes, Assemble, ItemSecs, ChunksOk, Trailer;
    var d' := PutEngine(h, d, s, wantSize, wantId).disk;
    var st := d'.state.value;
    var ss := RebuiltIsSession(h, d, s, wantSize, wantId);
    var x := PayloadBytes(ss);
    var hdr := SessHeaderBytes(h, st.model, st.config, |x|);
    var y := Materialized(h, d', stale).value;
    assert y == hdr + x + Trailer(h, hdr + x);
    FileParses(h, st.model, st.config, x, Trailer(h, hdr + x));
    assert y[SESS_HEADER..|y| - SESS_TRAILER] == x;
    ParseComplete(y, ss);
  }

  // A file with the rebuilt header is one ParseLayout starts on.
  lemma FileParses(h: Hashes, model: nat, config: nat, x: Bytes, trailer: Bytes)
    requires model < TWO64 && config < TWO64 && |trailer| == SESS_TRAILER && SESS_HEADER + |x| + SESS_TRAILER < TWO63
    ensures var y := SessHeaderBytes(h, model, config, |x|) + x + trailer;
      HeaderOk(y) && Word(y[16..24]) == model && Word(y[24..32]) == config
  {
    hide Word, U64, LE;
    var y := SessHeaderBytes(h, model, config, |x|) + x + trailer;
    assert y[..8] == SESS_MAGIC && y[8..12] == LE(SESS_VERSION, 4) && y[12..16] == LE(SESS_HEADER, 4);
    assert y[16..24] == U64(model) && y[24..32] == U64(config) && y[32..40] == U64(|x|);
    Pow256Values();
    WordOfLE(SESS_VERSION, 4);
    WordOfLE(SESS_HEADER, 4);
    U64Word(model);
    U64Word(config);
    U64Word(|x|);
  }
}

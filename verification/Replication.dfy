/**
 End-to-end replication: what a put of any planned delta leaves behind, and that with a current
 manifest and blocks that do not collide the assembled file is the sender's, byte for byte.
 */
module Replication {
  import opened Bytes
  import opened Options
  import opened Hashing
  import opened SessFile
  import opened SectionNames
  import opened Delta
  import opened DeltaStream
  import opened Replica

  function Names(items: seq<Item>): set<Name> {
    if items == [] then {} else
      var last := items[|items| - 1].section;
      Names(items[..|items| - 1]) + if last == "" then {} else {last}
  }

  lemma {:induction false} NamesIn(items: seq<Item>, name: Name)
    ensures name in Names(items) <==> name != "" && exists j :: 0 <= j < |items| && items[j].section == name
  {
    if items != [] {
      NamesIn(items[..|items| - 1], name);
      assert forall j :: 0 <= j < |items| - 1 ==> items[..|items| - 1][j] == items[j];
    }
  }

  // The bytes a put makes of one item: the kept prefix of the receiver's copy, then the new bytes.
  function Rebuild(f: Bytes, it: Item, secs: map<Name, Bytes>): (r: Bytes)
    requires it.off + it.len <= |f| && it.keep <= it.len
    ensures |r| == it.len
  {
    if it.section == "" then f[it.off..it.off + it.len]
    else Truncate(FileOf(secs, it.section), it.keep) + NewBytes(f, it)
  }

  function Rebuilt(f: Bytes, items: seq<Item>, secs: map<Name, Bytes>): Bytes
    requires Inside(f, items)
  {
    if items == [] then [] else
      Rebuilt(f, items[..|items| - 1], secs) + Rebuild(f, items[|items| - 1], secs)
  }

  // An item keeps no more than the receiver holds, and its section can name a file.
  predicate Takes(it: Item, have: map<Name, nat>) {
    it.section != "" ==> ValidKey(it.section) && it.keep <= HaveLen(have, it.section)
  }

  predicate Applicable(items: seq<Item>, have: map<Name, nat>) {
    Distinct(items) && forall i :: 0 <= i < |items| ==> Takes(items[i], have)
  }

  lemma ApplicableIs(items: seq<Item>, have: map<Name, nat>)
    requires Applicable(items, have)
    ensures Distinct(items) && forall i :: 0 <= i < |items| ==> Takes(items[i], have)
  {
  }

  // The receiver after the first k items of the stream.
  predicate Reached(f: Bytes, p: Plan, a0: Acc, k: nat, a: Acc)
    requires Inside(f, p.items) && k <= |p.items|
  {
    var done := p.items[..k];
    && a.cur == CursorAt(f, p, k)
    && Assemble(a.items, a.frames, a.secs) == Some(Rebuilt(f, done, a0.secs))
    && (forall i :: 0 <= i < |a.items| && a.items[i].section != "" ==> a.items[i].section in Names(done))
    && a.have == a0.have - Names(done)
    && a.secs - Names(done) == a0.secs - Names(done)
  }

  lemma NamesPush(p: Plan, k: nat)
    requires k < |p.items| && Distinct(p.items)
    ensures Names(p.items[..k + 1]) == Names(p.items[..k]) + if p.items[k].section == "" then {} else {p.items[k].section}
    ensures p.items[k].section !in Names(p.items[..k])
  {
    assert p.items[..k + 1][..k] == p.items[..k];
    NamesIn(p.items[..k], p.items[k].section);
  }

  lemma FrameReached(f: Bytes, p: Plan, a0: Acc, k: nat, a: Acc)
    requires Inside(f, p.items) && k < |p.items| && Distinct(p.items) && Reached(f, p, a0, k, a)
    requires p.items[k].section == "" && p.items[k].keep == 0
    ensures Reached(f, p, a0, k + 1, FrameStep(a, p.items[k], NewBytes(f, p.items[k]), CursorAt(f, p, k + 1)))
  {
    hide CursorAt, Names, Assemble, Have, Total, Truncate, ItemsBytes;
    var it := p.items[k];
    var data := NewBytes(f, it);
    var b := FrameStep(a, it, data, CursorAt(f, p, k + 1));
    NamesPush(p, k);
    AssembleSame(a.items, a.frames, a.secs, data, a.secs);
    AssemblePush(a.items, RItem("", it.len, |a.frames|), b.frames, a.secs);
    assert b.frames[|a.frames|..|a.frames| + it.len] == data;
    assert PieceOf(RItem("", it.len, |a.frames|), b.frames, a.secs) == Some(data) == Some(Rebuild(f, it, a0.secs));
    assert p.items[..k + 1][..k] == p.items[..k];
    assert Names(p.items[..k + 1]) == Names(p.items[..k]);
  }

  lemma PatchReached(f: Bytes, p: Plan, a0: Acc, k: nat, a: Acc)
    requires Inside(f, p.items) && k < |p.items| && Distinct(p.items) && Reached(f, p, a0, k, a)
    requires p.items[k].section != "" && ValidKey(p.items[k].section)
    ensures Reached(f, p, a0, k + 1, PatchStep(a, p.items[k], NewBytes(f, p.items[k]), CursorAt(f, p, k + 1)))
  {
    hide CursorAt, Names, ValidKey, NewBytes, Assemble, Have, Total, ItemsBytes;
    var it := p.items[k];
    var data := NewBytes(f, it);
    var b := PatchStep(a, it, data, CursorAt(f, p, k + 1));
    NamesPush(p, k);
    var done := Names(p.items[..k]);
    assert FileOf(a.secs, it.section) == FileOf(a0.secs, it.section) by {
      assert it.section in a.secs <==> it.section in a.secs - done;
      assert it.section in a0.secs <==> it.section in a0.secs - done;
    }
    AssembleSame(a.items, a.frames, a.secs, [], b.secs);
    assert a.frames + [] == a.frames;
    AssemblePush(a.items, RItem(it.section, it.len, 0), b.frames, b.secs);
    NewLen(f, it);
    assert b.secs[it.section][..it.len] == b.secs[it.section] == Rebuild(f, it, a0.secs);
    assert PieceOf(RItem(it.section, it.len, 0), b.frames, b.secs) == Some(Rebuild(f, it, a0.secs));
    assert p.items[..k + 1][..k] == p.items[..k];
    PatchOutside(a.secs, a0.secs, done, it.section, b.secs[it.section]);
  }

  lemma PatchOutside(secs: map<Name, Bytes>, secs0: map<Name, Bytes>, done: set<Name>, name: Name, x: Bytes)
    requires secs - done == secs0 - done
    ensures secs[name := x] - (done + {name}) == secs0 - (done + {name})
  {
    assert secs[name := x] - (done + {name}) == (secs - done) - {name};
    assert secs0 - (done + {name}) == (secs0 - done) - {name};
  }

  // Item k stands whole in the stream s, at its place.
  predicate Holds(s: Bytes, f: Bytes, p: Plan, k: nat)
    requires Inside(f, p.items) && k < |p.items|
  {
    At(s, ItemPos(f, p, k), ItemBytes(f, p.items[k]))
  }

  // Over any stream that holds items k to m, a put gets from before k to before m.
  lemma {:induction false} RunReaches(s: Bytes, f: Bytes, p: Plan, hd: Header, a0: Acc, k: nat, a: Acc, m: nat) returns (b: Acc)
    requires PlanOk(p) && Inside(f, p.items) && k <= m <= |p.items| && hd.size == p.size
    requires Distinct(p.items) && Reached(f, p, a0, k, a) && a.cur.pos <= |s|
    requires forall j :: k <= j < m ==> Holds(s, f, p, j) && Takes(p.items[j], a0.have)
    ensures b.cur.pos <= |s| && PutRun(s, hd, a) == PutRun(s, hd, b)
    ensures Reached(f, p, a0, m, b)
    decreases m - k
  {
    hide Reached, NextItem, Available, CursorAt, ItemOk, NewBytes, ItemHead, Tiles, ValidKey, FrameStep, PatchStep, ItemBytes, ItemPos;
    if k == m {
      b := a;
    } else {
      ReachedCursor(f, p, a0, k, a);
      var it := p.items[k];
      assert Holds(s, f, p, k);
      EntryReads(s, f, p, hd, k);
      NamesPush(p, k);
      var c := CursorAt(f, p, k + 1);
      var next;
      if it.section == "" {
        assert it.keep == 0 by { ItemKeep(p, k); }
        FrameReached(f, p, a0, k, a);
        next := FrameStep(a, it, NewBytes(f, it), c);
      } else {
        PatchReached(f, p, a0, k, a);
        next := PatchStep(a, it, NewBytes(f, it), c);
      }
      assert PutStep(s, hd, a) == Go(next) by { NewLen(f, it); }
      b := RunReaches(s, f, p, hd, a0, k + 1, next, m);
    }
  }

  lemma ReachedCursor(f: Bytes, p: Plan, a0: Acc, k: nat, a: Acc)
    requires Inside(f, p.items) && k <= |p.items| && Reached(f, p, a0, k, a)
    ensures a.cur == CursorAt(f, p, k) && a.have == a0.have - Names(p.items[..k])
  {
  }

  lemma ItemKeep(p: Plan, k: nat)
    requires PlanOk(p) && k < |p.items|
    ensures p.items[k].section == "" ==> p.items[k].keep == 0
  {
    assert ItemOk(p.items[k]);
  }

  lemma NewLen(f: Bytes, it: Item)
    requires it.off + it.len <= |f| && it.keep <= it.len
    ensures |NewBytes(f, it)| == it.len - it.keep
  {
  }

  function HeaderOf(p: Plan): Header {
    Header(p.size, p.digest, p.model, p.config, |p.items|)
  }

  predicate Declares(want: Option<FileMeta>, p: Plan) {
    want.None? || (want.value.size == p.size && want.value.digest == p.digest)
  }

  // A put of any planned delta that keeps no more than the receiver holds, current or not, is
  // accepted, and leaves a complete replica of the declared size whose bytes are the receiver's
  // kept prefixes followed by the sender's.
  lemma PutLeaves(d: Disk, f: Bytes, p: Plan, want: Option<FileMeta>) returns (d': Disk)
    requires PlanOk(p) && Inside(f, p.items) && Declares(want, p)
    requires Applicable(p.items, StartAcc(d, HeaderOf(p)).have)
    ensures PutDisk(d, Stream(f, p), want) == Some(d')
    ensures Published(d') && d'.frames.Some? && !d'.state.value.trailer
    ensures d'.state.value.size == p.size && d'.state.value.digest == p.digest
    ensures Assemble(d'.state.value.items, d'.frames.value, d'.secs)
         == Some(Rebuilt(f, p.items, StartAcc(d, HeaderOf(p)).secs))
  {
    hide Reached, ReadAll, ReadHeader, Start, PutRun, NextItem, CursorAt, Assemble, ItemsBytes, HeaderBytes, Rebuilt, Applicable, Tiles, Have;
    var s, hd := Stream(f, p), HeaderOf(p);
    RoundTrip(f, p);
    var a0 := StartAcc(d, hd);
    StartReached(d, f, p);
    ApplicableIs(p.items, a0.have);
    forall j | 0 <= j < |p.items| ensures Holds(s, f, p, j) {
      StreamAt(f, p, j);
    }
    var a := RunReaches(s, f, p, hd, a0, 0, a0, |p.items|);
    ReachedCursor(f, p, a0, |p.items|, a);
    LastCursor(f, p, hd);
    assert PutRun(s, hd, a) == Some(a) by { RunStops(s, hd, a); }
    d' := PutDisk(d, s, want).value;
    assert d'.secs == a.secs - a.have.Keys;
    ReachedKept(f, p, a0, a);
  }

  lemma RunStops(s: Bytes, hd: Header, a: Acc)
    requires a.cur.pos <= |s| && NextItem(s, hd, a.cur).0.End?
    ensures PutRun(s, hd, a) == Some(a)
  {
  }

  lemma StartReached(d: Disk, f: Bytes, p: Plan)
    requires Inside(f, p.items) && Tiles(p.items, p.size)
    ensures var a0 := StartAcc(d, HeaderOf(p)); Reached(f, p, a0, 0, a0)
  {
    hide Have;
    assert p.items[..0] == [];
    var a0 := StartAcc(d, HeaderOf(p));
    assert a0.have - {} == a0.have;
    assert CursorAt(f, p, 0) == a0.cur;
  }

  // Dropping the sections the new file no longer has leaves its own alone.
  lemma ReachedKept(f: Bytes, p: Plan, a0: Acc, a: Acc)
    requires Inside(f, p.items) && Reached(f, p, a0, |p.items|, a)
    ensures Assemble(a.items, a.frames, a.secs - a.have.Keys) == Some(Rebuilt(f, p.items, a0.secs))
  {
    assert p.items[..|p.items|] == p.items;
    AssembleSame(a.items, a.frames, a.secs, [], a.secs - a.have.Keys);
    assert a.frames + [] == a.frames;
  }

  // ---- With a current manifest ----

  // In whichever section of the new file and copy of it the receiver holds, two blocks at the
  // same place hash alike only when they are alike.
  ghost predicate NoCollision(h: Hashes, f: Bytes, secs: seq<Sec>, files: map<Name, Bytes>)
    requires SecsIn(secs, |f|)
  {
    forall i, b: nat :: 0 <= i < |secs| && secs[i].name in files
      && (b + 1) * BLOCK <= secs[i].len && (b + 1) * BLOCK <= |files[secs[i].name]|
      && h.block(BlockAt(f, secs[i].off, b)) == h.block(BlockAt(files[secs[i].name], 0, b))
      ==> BlockAt(f, secs[i].off, b) == BlockAt(files[secs[i].name], 0, b)
  }

  // The blocks are hashes of the file's own leading blocks, and no more than its recorded length.
  predicate HashedFrom(h: Hashes, blocks: seq<Bytes>, len: nat, file: Bytes) {
    && |blocks| * BLOCK <= len && |blocks| * BLOCK <= |file|
    && forall b :: 0 <= b < |blocks| ==> blocks[b] == h.block(BlockAt(file, 0, b))
  }

  lemma WholeBlocks(h: Hashes, file: Bytes, len: nat)
    ensures BlockHashes(h, file, 0, len).Some? ==> HashedFrom(h, BlockHashes(h, file, 0, len).value, len, file)
  {
    assert len / BLOCK * BLOCK <= len;
  }

  lemma {:induction false} ManBlocks(h: Hashes, items: seq<RItem>, secs: map<Name, Bytes>, name: Name)
    requires ManSections(h, items, secs).Some?
    requires name in BlocksByName(ManSections(h, items, secs).value)
    ensures name in Have(items) && name in secs
    ensures HashedFrom(h, BlocksByName(ManSections(h, items, secs).value)[name], Have(items)[name], secs[name])
  {
    hide BlockHashes, HashedFrom, ValidKey;
    var n := |items| - 1;
    if n >= 0 {
      var it := items[n];
      var init := ManSections(h, items[..n], secs);
      var ms := ManSections(h, items, secs).value;
      if it.section != "" {
        assert ms[..|ms| - 1] == init.value;
        WholeBlocks(h, secs[it.section], it.len);
      }
      if it.section == "" || it.section != name {
        ManBlocks(h, items[..n], secs, name);
      }
    }
  }

  lemma {:induction false} BlocksAgree(f: Bytes, off: nat, g: Bytes, k: nat)
    requires off + k * BLOCK <= |f| && k * BLOCK <= |g|
    requires forall b :: 0 <= b < k ==> BlockAt(f, off, b) == BlockAt(g, 0, b)
    ensures f[off..off + k * BLOCK] == g[..k * BLOCK]
  {
    if k > 0 {
      BlocksAgree(f, off, g, k - 1);
      var m := (k - 1) * BLOCK;
      assert f[off..off + k * BLOCK] == f[off..off + m] + BlockAt(f, off, k - 1);
      assert g[..k * BLOCK] == g[..m] + BlockAt(g, 0, k - 1);
    }
  }

  // The prefix a plan keeps is the sender's own.
  predicate KeepsMatch(f: Bytes, items: seq<Item>, secs: map<Name, Bytes>)
    requires Inside(f, items)
  {
    forall i :: 0 <= i < |items| && items[i].section != "" ==>
      && items[i].keep <= |FileOf(secs, items[i].section)|
      && FileOf(secs, items[i].section)[..items[i].keep] == f[items[i].off..items[i].off + items[i].keep]
  }

  lemma KeepMatches(h: Hashes, f: Bytes, secs: seq<Sec>, j: nat, blocks: seq<Bytes>, len: nat, files: map<Name, Bytes>)
    requires SecsIn(secs, |f|) && j < |secs| && NoCollision(h, f, secs, files)
    requires secs[j].name in files && HashedFrom(h, blocks, len, files[secs[j].name])
    ensures var s := secs[j];
      var keep := MatchRun(h, f, s, blocks, 0) * BLOCK;
      && keep <= len && keep <= |files[s.name]| && keep <= s.len
      && files[s.name][..keep] == f[s.off..s.off + keep]
  {
    var s := secs[j];
    var k := MatchRun(h, f, s, blocks, 0);
    forall b | 0 <= b < k ensures BlockAt(f, s.off, b) == BlockAt(files[s.name], 0, b) {
      assert h.block(BlockAt(f, s.off, b)) == blocks[b] == h.block(BlockAt(files[s.name], 0, b));
      assert secs[j].name in files;
    }
    BlocksAgree(f, s.off, files[s.name], k);
  }

  // Against the receiver's own manifest, or none, what is kept is held and is the sender's.
  lemma PlanKeeps(h: Hashes, d: Disk, f: Bytes, secs: seq<Sec>, model: nat, config: nat, base: Option<Manifest>)
    requires SecsIn(secs, |f|) && NamesOk(secs)
    requires base.None? || base == ManifestOf(h, d)
    requires NoCollision(h, f, secs, d.secs)
    ensures var p := PlanOf(h, f, secs, model, config, base);
      var a0 := StartAcc(d, HeaderOf(p));
      && Inside(f, p.items) && Applicable(p.items, a0.have) && KeepsMatch(f, p.items, a0.secs)
  {
    hide StartAcc, NoCollision, NamesOk, Tiles, ItemsTo, MatchRun, ManifestOf, BaseBlocks, HeaderOf;
    var p := PlanOf(h, f, secs, model, config, base);
    var a0 := StartAcc(d, HeaderOf(p));
    var blocks := BaseBlocks(base, model, config);
    PlanTiles(h, f, secs, model, config, base);
    forall i | 0 <= i < |p.items| && p.items[i].section != ""
      ensures p.items[i].off + p.items[i].len <= |f| && ValidKey(p.items[i].section)
      ensures p.items[i].keep <= HaveLen(a0.have, p.items[i].section)
      ensures p.items[i].keep <= |FileOf(a0.secs, p.items[i].section)|
      ensures FileOf(a0.secs, p.items[i].section)[..p.items[i].keep] == f[p.items[i].off..p.items[i].off + p.items[i].keep]
    {
      assert Among(h, f, secs, blocks, |secs|, p.items[i]);
      var j :| 0 <= j < |secs| && p.items[i] == Item(secs[j].name, secs[j].off, secs[j].len, KeepOf(h, f, secs[j], blocks));
      PlanKeepsOne(h, d, f, secs, model, config, base, j);
    }
    forall i | 0 <= i < |p.items| ensures p.items[i].off + p.items[i].len <= |f| && p.items[i].keep <= p.items[i].len {
      TilesBelow(p.items, |f|, i);
      assert ItemOk(p.items[i]);
    }
  }

  lemma PlanKeepsOne(h: Hashes, d: Disk, f: Bytes, secs: seq<Sec>, model: nat, config: nat, base: Option<Manifest>, j: nat)
    requires SecsIn(secs, |f|) && NamesOk(secs) && j < |secs|
    requires base.None? || base == ManifestOf(h, d)
    requires NoCollision(h, f, secs, d.secs)
    ensures var p := PlanOf(h, f, secs, model, config, base);
      var a0 := StartAcc(d, HeaderOf(p));
      var s := secs[j];
      var keep := KeepOf(h, f, s, BaseBlocks(base, model, config));
      && ValidKey(s.name) && keep <= HaveLen(a0.have, s.name) && keep <= |FileOf(a0.secs, s.name)| && keep <= s.len
      && FileOf(a0.secs, s.name)[..keep] == f[s.off..s.off + keep]
  {
    hide NoCollision, ItemsTo, MatchRun, ManSections, Have;
    var s := secs[j];
    var blocks := BaseBlocks(base, model, config);
    if s.name in blocks {
      ManBlocks(h, d.state.value.items, d.secs, s.name);
      KeepMatches(h, f, secs, j, blocks[s.name], Have(d.state.value.items)[s.name], d.secs);
    }
  }

  lemma RebuildSame(f: Bytes, items: seq<Item>, secs: map<Name, Bytes>, i: nat)
    requires Inside(f, items) && KeepsMatch(f, items, secs) && i < |items|
    ensures Rebuild(f, items[i], secs) == f[items[i].off..items[i].off + items[i].len]
  {
    var it := items[i];
    if it.section != "" {
      var g := FileOf(secs, it.section);
      assert Truncate(g, it.keep) == g[..it.keep] == f[it.off..it.off + it.keep];
    }
  }

  lemma {:induction false} RebuiltPrefix(f: Bytes, items: seq<Item>, secs: map<Name, Bytes>, size: nat, k: nat)
    requires Inside(f, items) && KeepsMatch(f, items, secs) && k <= |items| && Tiles(items, size)
    ensures Rebuilt(f, items[..k], secs) == f[..if k == 0 then 0 else items[k - 1].off + items[k - 1].len]
  {
    hide KeepsMatch, Rebuild;
    if k > 0 {
      RebuiltPrefix(f, items, secs, size, k - 1);
      RebuildSame(f, items, secs, k - 1);
      var it := items[k - 1];
      assert items[..k][..k - 1] == items[..k - 1];
      assert it.off == if k == 1 then 0 else items[k - 2].off + items[k - 2].len;
      assert f[..it.off] + f[it.off..it.off + it.len] == f[..it.off + it.len];
    }
  }

  lemma {:induction false} RebuiltLength(f: Bytes, items: seq<Item>, secs: map<Name, Bytes>, size: nat, k: nat)
    requires Inside(f, items) && k <= |items| && Tiles(items, size)
    ensures |Rebuilt(f, items[..k], secs)| == if k == 0 then 0 else items[k - 1].off + items[k - 1].len
  {
    hide Rebuild;
    if k > 0 {
      RebuiltLength(f, items, secs, size, k - 1);
      assert items[..k][..k - 1] == items[..k - 1];
    }
  }

  function SecsOf(l: Layout): (r: seq<Sec>)
    requires forall i :: 0 <= i < |l.sections| ==> FieldOk(l.sections[i].field)
    ensures |r| == |l.sections|
    ensures forall i :: 0 <= i < |r| ==> r[i] == Sec(NameOf(l.sections[i].field), l.sections[i].off, l.sections[i].len)
  {
    seq(|l.sections|, i requires 0 <= i < |l.sections| =>
      Sec(NameOf(l.sections[i].field), l.sections[i].off, l.sections[i].len))
  }

  lemma SecsOfOk(f: Bytes)
    requires Parse(f).Some?
    ensures var l := Parse(f).value;
      && (forall i :: 0 <= i < |l.sections| ==> FieldOk(l.sections[i].field))
      && SecsIn(SecsOf(l), |f|) && NamesOk(SecsOf(l)) && l.model < TWO64 && l.config < TWO64
  {
    ParseTidy(f);
    hide WalkOf, NameOf, ValidKey, Word, FieldOk, Before;
    Pow256Values();
  }

  // The sections of a session file by name, and the plan a sender makes for it.
  function Sections(f: Bytes): (r: seq<Sec>)
    requires Parse(f).Some?
    ensures SecsIn(r, |f|) && NamesOk(r)
  {
    SecsOfOk(f);
    SecsOf(Parse(f).value)
  }

  function PlanFor(h: Hashes, f: Bytes, base: Option<Manifest>): Plan
    requires Parse(f).Some?
  {
    PlanOf(h, f, Sections(f), Parse(f).value.model, Parse(f).value.config, base)
  }

  // ---- A current manifest keeps what it can ----

  // The last item of a name stands for its file.
  predicate LastItem(items: seq<RItem>, x: nat, name: Name) {
    && x < |items| && items[x].section == name
    && forall y :: x < y < |items| ==> items[y].section != name
  }

  lemma {:induction false} ManHashes(h: Hashes, items: seq<RItem>, secs: map<Name, Bytes>, x: nat, name: Name) returns (y: nat)
    requires ManSections(h, items, secs).Some? && LastItem(items, x, name) && name != ""
    ensures var ms := ManSections(h, items, secs).value;
      LastNamed(ms, y, name) && name in secs && BlockHashes(h, secs[name], 0, items[x].len) == Some(ms[y].blocks)
  {
    hide BlockHashes, ValidKey;
    var n := |items| - 1;
    var ms, init := ManSections(h, items, secs).value, ManSections(h, items[..n], secs).value;
    if x == n {
      y := |ms| - 1;
    } else {
      y := ManHashes(h, items[..n], secs, x, name);
      assert items[n].section != name;
      assert forall z :: 0 <= z < |init| ==> ms[z] == init[z];
    }
  }

  // Against the receiver's current manifest, a section whose first k whole blocks the receiver holds
  // keeps at least those.
  lemma KeepsHeld(h: Hashes, d: Disk, f: Bytes, i: nat, x: nat, k: nat)
    requires Parse(f).Some? && ManifestOf(h, d).Some?
    requires d.state.value.model == Parse(f).value.model && d.state.value.config == Parse(f).value.config
    requires var items := PlanFor(h, f, ManifestOf(h, d)).items;
      && i < |items| && items[i].section != "" && LastItem(d.state.value.items, x, items[i].section)
      && items[i].section in d.secs && items[i].off + items[i].len <= |f|
      && k * 65536 <= items[i].len && k * 65536 <= d.state.value.items[x].len && k * 65536 <= |d.secs[items[i].section]|
      && f[items[i].off..items[i].off + k * 65536] == d.secs[items[i].section][..k * 65536]
    ensures PlanFor(h, f, ManifestOf(h, d)).items[i].keep >= k * 65536
  {
    hide Parse, ItemsTo, ManSections, SecsOf, NamesOk, LastNamed, BlockHashes, PlanOf;
    var base, l := ManifestOf(h, d), Parse(f).value;
    var it := PlanFor(h, f, base).items[i];
    var n := KeepsLongest(h, f, Sections(f), l.model, l.config, base, i);
    var y := ManHashes(h, d.state.value.items, d.secs, x, it.section);
    if n < k {
      SameBlock(f, it.off, d.secs[it.section], k, n);
      HashAt(h, d.secs[it.section], d.state.value.items[x].len, n);
    }
  }

  lemma SameBlock(f: Bytes, off: nat, g: Bytes, k: nat, n: nat)
    requires n < k && off + k * 65536 <= |f| && k * 65536 <= |g| && f[off..off + k * 65536] == g[..k * 65536]
    ensures f[off + n * 65536..off + (n + 1) * 65536] == g[n * 65536..(n + 1) * 65536]
  {
    var lo, hi := n * 65536, (n + 1) * 65536;
    assert f[off..off + k * 65536][lo..hi] == f[off + lo..off + hi];
    assert g[..k * 65536][lo..hi] == g[lo..hi];
  }

  lemma HashAt(h: Hashes, g: Bytes, len: nat, n: nat)
    requires BlockHashes(h, g, 0, len).Some? && (n + 1) * 65536 <= len && (n + 1) * 65536 <= |g|
    ensures var bs := BlockHashes(h, g, 0, len).value;
      n < |bs| && bs[n] == h.block(g[n * 65536..(n + 1) * 65536])
  {
    assert g[0 + n * 65536..0 + (n + 1) * 65536] == g[n * 65536..(n + 1) * 65536];
  }

  lemma PlanForInside(h: Hashes, f: Bytes, base: Option<Manifest>)
    requires Parse(f).Some?
    ensures var p := PlanFor(h, f, base); Tiles(p.items, |f|) && Inside(f, p.items)
    ensures forall i :: 0 <= i < |PlanFor(h, f, base).items| ==> ItemOk(PlanFor(h, f, base).items[i])
  {
    hide Parse, ItemsTo, Planned, SecsOf;
    var p, l := PlanFor(h, f, base), Parse(f).value;
    PlanTiles(h, f, Sections(f), l.model, l.config, base);
    PlannedOk(h, f, Sections(f), BaseBlocks(base, l.model, l.config), p.items);
    forall i | 0 <= i < |p.items| ensures p.items[i].off + p.items[i].len <= |f| && p.items[i].keep <= p.items[i].len {
      TilesBelow(p.items, |f|, i);
      assert ItemOk(p.items[i]);
    }
  }

  // What the sender streams for a session file.
  function Pushed(h: Hashes, f: Bytes, base: Option<Manifest>): Bytes
    requires Parse(f).Some?
  {
    PlanForInside(h, f, base);
    Stream(f, PlanFor(h, f, base))
  }

  method Push(h: Hashes, f: Bytes, base: Option<Manifest>) returns (r: Option<Bytes>)
    ensures r == if Parse(f).None? then None else Some(Pushed(h, f, base))
  {
    var l := ParseLayout(f);
    if l.None? {
      return None;
    }
    var p := Diff(h, f, Sections(f), l.value.model, l.value.config, base);
    PlanForInside(h, f, base);
    var w := WriteDelta(f, p);
    return Some(w);
  }

  // A session file a receiver can be sent: its size is a file size, its items are not too many.
  predicate Sendable(h: Hashes, f: Bytes, base: Option<Manifest>) {
    Parse(f).Some? && |f| < TWO63 && |PlanFor(h, f, base).items| <= 0x10_0000
  }

  lemma PlanForOk(h: Hashes, f: Bytes, base: Option<Manifest>)
    requires Sendable(h, f, base)
    ensures PlanOk(PlanFor(h, f, base)) && Inside(f, PlanFor(h, f, base).items)
  {
    hide Parse, ItemsTo, SecsOf, Tiles, ItemOk;
    PlanForInside(h, f, base);
    SecsOfOk(f);
  }

  // End to end: for every replica and every session file, planning against the receiver's
  // manifest (or none), streaming, applying and assembling gives the sender's file.
  lemma EndToEnd(h: Hashes, d: Disk, f: Bytes, base: Option<Manifest>, want: Option<FileMeta>, stale: Bytes)
    requires Sendable(h, f, base) && NoCollision(h, f, Sections(f), d.secs)
    requires base.None? || base == ManifestOf(h, d)
    requires want.None? || (want.value.size == |f| && want.value.digest == h.digest(f))
    ensures PutDisk(d, Pushed(h, f, base), want).Some?
    ensures Materialized(h, PutDisk(d, Pushed(h, f, base), want).value, stale) == Some(f)
  {
    hide Parse, NoCollision, ManifestOf, Stream, ItemsTo, Rebuilt, PutDisk, Assemble, KeepsMatch, Applicable, StartAcc, Planned, PlanOk, SecsOf, ItemOk, BaseBlocks;
    var l := Parse(f).value;
    var p := PlanFor(h, f, base);
    PlanForOk(h, f, base);
    PlanKeeps(h, d, f, Sections(f), l.model, l.config, base);
    var d' := PutLeaves(d, f, p, want);
    PlanForInside(h, f, base);
    RebuiltPrefix(f, p.items, StartAcc(d, HeaderOf(p)).secs, |f|, |p.items|);
    assert p.items[..|p.items|] == p.items;
    assert f[..|f|] == f;
  }

  // The receiver's kept prefixes, each followed by the sender's bytes.
  function RebuiltFor(h: Hashes, d: Disk, f: Bytes, base: Option<Manifest>): Bytes
    requires Parse(f).Some?
  {
    PlanForInside(h, f, base);
    Rebuilt(f, PlanFor(h, f, base).items, StartAcc(d, HeaderOf(PlanFor(h, f, base))).secs)
  }

  // A planned delta that keeps more than the receiver holds somewhere is refused there.
  lemma PutRefuses(d: Disk, f: Bytes, p: Plan, want: Option<FileMeta>)
    requires PlanOk(p) && Inside(f, p.items) && Declares(want, p) && Distinct(p.items)
    requires !Applicable(p.items, StartAcc(d, HeaderOf(p)).have)
    ensures PutDisk(d, Stream(f, p), want).None?
  {
    hide Reached, ReadAll, ReadHeader, Start, PutRun, NextItem, CursorAt, Assemble, ItemsBytes, HeaderBytes, Tiles, Have, Takes;
    var s, hd := Stream(f, p), HeaderOf(p);
    RoundTrip(f, p);
    var a0 := StartAcc(d, hd);
    StartReached(d, f, p);
    forall j | 0 <= j < |p.items| ensures Holds(s, f, p, j) {
      StreamAt(f, p, j);
    }
    var k := FirstBad(p.items, a0.have, 0);
    var a := RunReaches(s, f, p, hd, a0, 0, a0, k);
    BadRefused(s, f, p, hd, a0, k, a);
  }

  lemma FirstBad(items: seq<Item>, have: map<Name, nat>, n: nat) returns (k: nat)
    requires Distinct(items) && !Applicable(items, have) && n <= |items| && forall j :: 0 <= j < n ==> Takes(items[j], have)
    ensures k < |items| && !Takes(items[k], have) && forall j :: 0 <= j < k ==> Takes(items[j], have)
    decreases |items| - n
  {
    hide Takes;
    if Takes(items[n], have) { k := FirstBad(items, have, n + 1); } else { k := n; }
  }

  lemma BadRefused(s: Bytes, f: Bytes, p: Plan, hd: Header, a0: Acc, k: nat, a: Acc)
    requires PlanOk(p) && Inside(f, p.items) && k < |p.items| && hd.size == p.size && Distinct(p.items)
    requires Reached(f, p, a0, k, a) && a.cur.pos <= |s| && Holds(s, f, p, k) && !Takes(p.items[k], a0.have)
    ensures PutRun(s, hd, a).None?
  {
    hide Reached, NextItem, Available, CursorAt, ItemOk, NewBytes, ItemHead, Tiles, ValidKey, ItemBytes, ItemPos;
    ReachedCursor(f, p, a0, k, a);
    EntryReads(s, f, p, hd, k);
    NamesPush(p, k);
    assert PutStep(s, hd, a).Refuse?;
  }

  lemma PlanForDistinct(h: Hashes, f: Bytes, base: Option<Manifest>)
    requires Sendable(h, f, base)
    ensures Distinct(PlanFor(h, f, base).items)
  {
    hide Parse, ItemsTo, SecsOf, Tiles, ItemOk;
    SecsOfOk(f);
    PlanTiles(h, f, Sections(f), Parse(f).value.model, Parse(f).value.config, base);
  }

  // The same push against any other manifest, outdated or another key's: the receiver takes it
  // exactly when it keeps nothing the receiver does not hold, and then publishes it exactly when
  // what it built has the sender's digest.
  lemma StaleManifest(h: Hashes, d: Disk, f: Bytes, base: Option<Manifest>, want: Option<FileMeta>, stale: Bytes)
    requires Sendable(h, f, base)
    requires want.None? || (want.value.size == |f| && want.value.digest == h.digest(f))
    ensures PutDisk(d, Pushed(h, f, base), want).Some? <==>
      Applicable(PlanFor(h, f, base).items, StartAcc(d, HeaderOf(PlanFor(h, f, base))).have)
    ensures PutDisk(d, Pushed(h, f, base), want).Some? ==>
      var r := Materialized(h, PutDisk(d, Pushed(h, f, base), want).value, stale);
      var x := RebuiltFor(h, d, f, base);
      && (r.Some? <==> h.digest(x) == h.digest(f)) && (r.Some? ==> r.value == x && |x| == |f|)
  {
    hide Parse, Stream, ItemsTo, Rebuilt, PutDisk, Assemble, Applicable, StartAcc, PlanOk, SecsOf, Distinct, ItemOk, BaseBlocks;
    var p := PlanFor(h, f, base);
    PlanForOk(h, f, base);
    if Applicable(p.items, StartAcc(d, HeaderOf(p)).have) {
      var d' := PutLeaves(d, f, p, want);
      PlanForInside(h, f, base);
      RebuiltLength(f, p.items, StartAcc(d, HeaderOf(p)).secs, |f|, |p.items|);
      assert p.items[..|p.items|] == p.items;
    } else {
      PlanForDistinct(h, f, base);
      PutRefuses(d, f, p, want);
    }
  }

  lemma PlannedOk(h: Hashes, f: Bytes, secs: seq<Sec>, base: map<Name, seq<Bytes>>, items: seq<Item>)
    requires SecsIn(secs, |f|) && Planned(h, f, secs, base, |secs|, items)
    ensures forall k :: 0 <= k < |items| ==> ItemOk(items[k])
  {
  }
}

/**
 The rebuild of a replica from an engine delta as the code does it (internal/kvshare/enginedelta.go,
 rebuild and deltaReader): a cursor in the stream, framing and items appended, sections patched.
 Each method computes the function of the same name in EngineDelta.
 */
module Rebuilding {
  import opened Bytes
  import opened Hashing
  import opened SessFile
  import opened SectionNames
  import opened Replica
  import opened EngineDelta

  lemma ChunkStep(h: Hashes, x: Bytes, c: nat)
    requires x != [] && c == if |x| <= CHUNK then |x| else CHUNK
    ensures ChunkHashes(h, x) == [h.sess(x[..c])] + ChunkHashes(h, x[c..])
  {
    if |x| <= CHUNK {
      assert x[..c] == x && x[c..] == [];
    }
  }

  // The hashes of x's chunks, chunk by chunk.
  method HashChunks(h: Hashes, x: Bytes) returns (r: seq<Word64>)
    ensures r == ChunkHashes(h, x)
  {
    hide ChunkHashes;
    r := [];
    var off := 0;
    assert x[0..] == x;
    while off < |x|
      invariant off <= |x|
      invariant r + ChunkHashes(h, x[off..]) == ChunkHashes(h, x)
    {
      var c := if |x| - off <= CHUNK then |x| - off else CHUNK;
      ghost var rest := x[off..];
      ChunkStep(h, rest, c);
      assert rest[..c] == x[off..off + c] && rest[c..] == x[off + c..];
      r := r + [h.sess(x[off..off + c])];
      off := off + c;
    }
    assert x[off..] == [];
    assert |ChunkHashes(h, [])| == 0;
  }

  method ReadWords(s: Bytes, p: nat, n: nat) returns (r: seq<Word64>)
    requires p + 8 * n <= |s|
    ensures r == Words(s, p, n)
  {
    r := [];
    for i := 0 to n
      invariant r == Words(s, p, i)
    {
      Pow256Values();
      r := r + [Word(s[p + 8 * i..p + 8 * (i + 1)])];
    }
  }

  // A section, field by field.
  lemma SectionIs(s: Bytes, b: Reb, fd: Field, keep: nat, n: nat)
    requires InS(s, b) && FieldOk(fd)
    ensures var r, name := SectionB(s, b, fd, keep, n), NameOf(fd);
      if b.Broken? || n >= TWO63 || keep > n || keep > HaveLen(b.have, name) || b.p + n - keep > |s| then r.Broken?
      else
        && r.Reb? && r.p == b.p + n - keep && r.frames == b.frames && r.items == b.items + [RItem(name, n, 0)]
        && r.have == b.have - {name} && r.chunks == b.chunks && r.keeps == b.keeps[name := keep] && r.size == b.size + n
        && r.secs == b.secs[name := Truncate(FileOf(b.secs, name), keep) + s[b.p..b.p + n - keep]]
        && r.out == b.out + [Section(fd, b.size, n)]
  {
    hide NameOf, Truncate, FileOf, HaveLen;
  }

  class Rebuild {
    const h: Hashes
    const s: Bytes
    const limit: nat
    var p: nat
    var frames: Bytes
    var items: seq<RItem>
    var have: map<Name, nat>
    var chunks: map<Name, seq<Word64>>
    var keeps: map<Name, nat>
    var size: nat
    var secs: map<Name, Bytes>
    var err: bool
    ghost var out: seq<Section>

    ghost function View(): Reb
      reads this
    {
      if err then Broken else Reb(p, frames, items, have, chunks, keeps, size, secs, out)
    }

    ghost predicate Valid()
      reads this
    {
      p <= |s|
    }

    constructor (hashes: Hashes, stream: Bytes, d: Disk, hd: EHeader)
      requires Published(d) && |stream| >= ENGINE_HEADER
      ensures Valid() && h == hashes && s == stream && limit == hd.fileSize
      ensures View() == StartReb(hashes, d, hd)
    {
      h, s, limit, p := hashes, stream, hd.fileSize, ENGINE_HEADER;
      frames, items, size := SessHeaderBytes(hashes, hd.model, hd.config, 0), [RItem("", SESS_HEADER, 0)], SESS_HEADER;
      have, chunks, keeps := Have(d.state.value.items), d.state.value.chunks, map[];
      secs, err, out := d.secs, false, [];
      new;
      assert [] + frames == frames;
    }

    method AddFrame(x: Bytes)
      requires Valid() && !err
      modifies this
      ensures Valid() && !err && p == old(p) && View() == Frame(old(View()), x)
    {
      if items != [] && items[|items| - 1].section == "" {
        var last := items[|items| - 1];
        items := items[..|items| - 1] + [last.(len := last.len + |x|)];
      } else {
        items := items + [RItem("", |x|, |frames|)];
      }
      frames, size := frames + x, size + |x|;
    }

    method Skip(n: nat)
      requires Valid()
      modifies this
      ensures Valid() && View() == SkipB(s, old(View()), n)
    {
      if err {
        return;
      }
      if p + n > |s| {
        err := true;
        return;
      }
      AddFrame(s[p..p + n]);
      p := p + n;
    }

    method Count() returns (v: nat)
      requires Valid()
      modifies this
      ensures Valid() && (View(), v) == CountB(s, old(View()))
    {
      if err {
        return 0;
      }
      if p + 8 > |s| {
        err := true;
        return 0;
      }
      v := Word(s[p..p + 8]);
      AddFrame(U64(v));
      p := p + 8;
    }

    method PutSection(fd: Field, keep: nat, n: nat)
      requires Valid() && FieldOk(fd)
      modifies this
      ensures Valid() && View() == SectionB(s, old(View()), fd, keep, n)
    {
      hide NameOf, Truncate, FileOf, HaveLen, SectionB;
      SectionIs(s, View(), fd, keep, n);
      if err {
        return;
      }
      var name := NameOf(fd);
      if n >= TWO63 || keep > n || keep > HaveLen(have, name) || p + n - keep > |s| {
        err := true;
        return;
      }
      secs := secs[name := Truncate(FileOf(secs, name), keep) + s[p..p + n - keep]];
      have, keeps := have - {name}, keeps[name := keep];
      out := out + [Section(fd, size, n)];
      items, size, p := items + [RItem(name, n, 0)], size + n, p + n - keep;
    }

    method Whole(fd: Field)
      requires Valid() && FieldOk(fd)
      modifies this
      ensures Valid() && View() == WholeB(s, old(View()), fd, limit)
    {
      hide SectionB, CountB;
      var n := Count();
      if err {
        return;
      }
      var elem := Elem(fd.kind, fd.j);
      if n > limit / elem {
        err := true;
        return;
      }
      PutSection(fd, 0, n * elem);
    }

    // The chunk hashes after a K/V buffer: the kept ones against the base's, the rest against the
    // file just written.
    method CheckHashes(name: Name, keep: nat, n: nat, base: seq<Word64>)
      requires Valid()
      modifies this
      ensures Valid() && View() == HashesB(h, s, old(View()), name, keep, n, base)
    {
      hide ChunkHashes, Words;
      if err {
        return;
      }
      if p + 8 > |s| {
        err := true;
        return;
      }
      var count, q := Word(s[p..p + 8]), p + 8;
      if count != ChunkCount(n) || q + 8 * count > |s| {
        err := true;
        return;
      }
      var hashes := ReadWords(s, q, count);
      var kept := keep / CHUNK;
      var file := FileOf(secs, name);
      if kept > count || kept > |base| || keep > |file| {
        err := true;
        return;
      }
      for i := 0 to kept
        invariant Valid() && !err && View() == old(View())
        invariant hashes[..i] == base[..i]
      {
        if hashes[i] != base[i] {
          assert hashes[..kept][i] != base[..kept][i];
          err := true;
          return;
        }
      }
      var got := HashChunks(h, file[keep..]);
      if got != hashes[kept..] {
        err := true;
        return;
      }
      p, chunks := q + 8 * count, chunks[name := hashes];
    }

    method KvBuffer(fd: Field)
      requires Valid() && FieldOk(fd)
      modifies this
      ensures Valid() && View() == KvB(h, s, old(View()), fd, limit)
    {
      hide SectionB, HashesB, NameOf, FrameItems;
      if err {
        return;
      }
      if p + 16 > |s| {
        err := true;
        return;
      }
      var n, keep := Word(s[p..p + 8]), Word(s[p + 8..p + 16]);
      if n > limit || keep > n || keep % CHUNK != 0 {
        err := true;
        return;
      }
      var name := NameOf(fd);
      var base := ChunksOf(chunks, name);
      if keep / CHUNK > |base| {
        err := true;
        return;
      }
      AddFrame(U64(n));
      p := p + 16;
      PutSection(fd, keep, n);
      CheckHashes(name, keep, n, base);
    }

    method PutField(fd: Field)
      requires Valid() && FieldOk(fd)
      modifies this
      ensures Valid() && View() == FieldB(h, s, old(View()), fd, limit)
    {
      hide KvB, WholeB;
      if fd.kind.Kv? {
        KvBuffer(fd);
      } else {
        Whole(fd);
      }
    }

    // One checkpoint or K/V layer.
    method Record(kind: Kind, i: nat)
      requires Valid() && RecIndexOk(kind, i)
      modifies this
      ensures Valid() && View() == RecB(h, s, old(View()), kind, i, limit)
    {
      hide FieldB, SkipB;
      if kind.Kv? {
        Skip(PreLen(kind));
      }
      ghost var b := View();
      for j := 0 to PartCount(kind)
        invariant Valid() && View() == FieldsB(h, s, b, kind, i, j, limit)
      {
        PutField(Field(kind, i, j));
      }
      if !kind.Kv? {
        Skip(PostLen(kind));
      }
    }

    method Group(kind: Kind, most: nat)
      requires Valid() && !kind.Live? && most <= TWO64
      modifies this
      ensures Valid() && View() == GroupB(h, s, old(View()), kind, most, limit)
    {
      hide RecB, CountB;
      var n := Count();
      if err {
        return;
      }
      if n > most {
        err := true;
        return;
      }
      ghost var b := View();
      for i := 0 to n
        invariant Valid() && View() == RecsB(h, s, b, kind, i, limit)
      {
        Record(kind, i);
      }
    }

    method Payload()
      requires Valid()
      modifies this
      ensures Valid() && View() == PayloadB(h, s, old(View()), limit)
    {
      hide RecB, GroupB, SkipB;
      Skip(GEOMETRY);
      Record(Live, 0);
      Group(Ckpt, MAX_CKPTS);
      Group(Kv, MAX_LAYERS);
    }
  }
}

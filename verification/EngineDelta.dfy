/**
 The engine's own deltas (internal/kvshare/enginedelta.go, format STRSDLT v1): a payload in
 session-file order whose K/V buffers carry only what follows the chunks kept from the base. The
 receiver walks it as ParseLayout walks a session file, writing sections and framing as it goes.
 */
module EngineDelta {
  import opened Bytes
  import opened Options
  import opened Hashing
  import opened SessFile
  import opened SectionNames
  import opened Replica

  const ENGINE_MAGIC: Bytes := [83, 84, 82, 83, 68, 76, 84, 1]  // "STRSDLT\x01"
  const ENGINE_END: Bytes := [83, 84, 82, 83, 68, 69, 78, 68]   // "STRSDEND"
  const ENGINE_HEADER: nat := 80
  const MAX_CKPTS: nat := 64
  const MAX_LAYERS: nat := 1024

  datatype EHeader = EHeader(model: nat, config: nat, payload: nat, base: nat, new_: nat, fileSize: nat)

  function ReadEngineHeader(h: Hashes, s: Bytes): Option<EHeader> {
    if |s| < ENGINE_HEADER || s[..8] != ENGINE_MAGIC
       || Word(s[8..12]) != 1 || Word(s[12..16]) != ENGINE_HEADER || h.sess(s[..72]) != Word(s[72..80]) then None
    else Some(EHeader(Word(s[16..24]), Word(s[24..32]), Word(s[32..40]), Word(s[40..48]), Word(s[48..56]), Word(s[56..64])))
  }

  // The header of the rebuilt file, without its checksum and with it.
  function SessHead(model: nat, config: nat, payload: nat): (r: Bytes)
    ensures |r| == 56
  {
    SESS_MAGIC + LE(SESS_VERSION, 4) + LE(SESS_HEADER, 4) + U64(model) + U64(config) + U64(payload) + Zeros(16)
  }

  function SessHeaderBytes(h: Hashes, model: nat, config: nat, payload: nat): (r: Bytes)
    ensures |r| == SESS_HEADER
  {
    SessHead(model, config, payload) + U64(h.sess(SessHead(model, config, payload)))
  }

  function HexDigit(d: nat): char
    requires d < 16
  {
    if d < 10 then ('0' as int + d) as char else ('a' as int + d - 10) as char
  }

  // %016x
  function Hex(id: nat, digits: nat): string {
    if digits == 0 then "" else Hex(id / 16, digits - 1) + [HexDigit(id % 16)]
  }

  function SaveIdString(id: nat): string {
    Hex(id, 16)
  }

  // The replica being rebuilt: where the stream stands, framing and items so far, what the base
  // still offers, and the section files as patched. out is the sections met, as ParseLayout
  // lists them.
  datatype Reb = Reb(p: nat, frames: Bytes, items: seq<RItem>, have: map<Name, nat>, chunks: map<Name, seq<Word64>>,
                     keeps: map<Name, nat>, size: nat, secs: map<Name, Bytes>, out: seq<Section>)
               | Broken

  predicate InS(s: Bytes, b: Reb) {
    b.Reb? ==> b.p <= |s|
  }

  // Framing bytes join the frame before them.
  function FrameItems(items: seq<RItem>, at: nat, n: nat): seq<RItem> {
    if items != [] && items[|items| - 1].section == ""
    then items[..|items| - 1] + [items[|items| - 1].(len := items[|items| - 1].len + n)]
    else items + [RItem("", n, at)]
  }

  function Frame(b: Reb, x: Bytes): (r: Reb)
    requires b.Reb?
    ensures r.Reb? && r.p == b.p && r.size == b.size + |x|
  {
    b.(items := FrameItems(b.items, |b.frames|, |x|), frames := b.frames + x, size := b.size + |x|)
  }

  function SkipB(s: Bytes, b: Reb, n: nat): (r: Reb)
    requires InS(s, b)
    ensures InS(s, r)
  {
    if b.Broken? || b.p + n > |s| then Broken else
      var fr := Frame(b, s[b.p..b.p + n]);
      fr.(p := b.p + n)
  }

  // A count, copied to the framing.
  function CountB(s: Bytes, b: Reb): (r: (Reb, nat))
    requires InS(s, b)
    ensures InS(s, r.0)
  {
    if b.Broken? || b.p + 8 > |s| then (Broken, 0) else
      var n := Word(s[b.p..b.p + 8]);
      var fr := Frame(b, U64(n));
      (fr.(p := b.p + 8), n)
  }

  // size bytes of a section: keep from the base, then the stream's.
  function SectionB(s: Bytes, b: Reb, fd: Field, keep: nat, size: nat): (r: Reb)
    requires InS(s, b) && FieldOk(fd)
    ensures InS(s, r)
  {
    if b.Broken? then Broken else
      var name := NameOf(fd);
      if size >= TWO63 || keep > size || keep > HaveLen(b.have, name) || b.p + size - keep > |s| then Broken
      else Reb(b.p + size - keep, b.frames, b.items + [RItem(name, size, 0)], b.have - {name}, b.chunks,
               b.keeps[name := keep], b.size + size,
               b.secs[name := Truncate(FileOf(b.secs, name), keep) + s[b.p..b.p + size - keep]],
               b.out + [Section(fd, b.size, size)])
  }

  // A section that travels whole.
  function WholeB(s: Bytes, b: Reb, fd: Field, limit: nat): (r: Reb)
    requires InS(s, b) && FieldOk(fd)
    ensures InS(s, r)
  {
    var elem := Elem(fd.kind, fd.j);
    var (b1, n) := CountB(s, b);
    if b1.Broken? || n > limit / elem then Broken else SectionB(s, b1, fd, 0, n * elem)
  }

  function Words(s: Bytes, p: nat, n: nat): (r: seq<Word64>)
    requires p + 8 * n <= |s|
    ensures |r| == n
  {
    if n == 0 then [] else
      Pow256Values();
      Words(s, p, n - 1) + [Word(s[p + 8 * (n - 1)..p + 8 * n])]
  }

  function ChunksOf(chunks: map<Name, seq<Word64>>, name: Name): seq<Word64> {
    if name in chunks then chunks[name] else []
  }

  function ChunkCount(size: nat): nat {
    (size + CHUNK - 1) / CHUNK
  }

  // The hashes that end a K/V buffer: the kept ones are the base's, the others the file's.
  function HashesB(h: Hashes, s: Bytes, b: Reb, name: Name, keep: nat, size: nat, base: seq<Word64>): (r: Reb)
    requires InS(s, b)
    ensures InS(s, r)
  {
    if b.Broken? || b.p + 8 > |s| then Broken else
      var n, q := Word(s[b.p..b.p + 8]), b.p + 8;
      if n != ChunkCount(size) || q + 8 * n > |s| then Broken else
        var hashes, kept := Words(s, q, n), keep / CHUNK;
        if kept > n || kept > |base| || keep > |FileOf(b.secs, name)| then Broken
        else if hashes[..kept] != base[..kept] || hashes[kept..] != ChunkHashes(h, FileOf(b.secs, name)[keep..]) then Broken
        else b.(p := q + 8 * n, chunks := b.chunks[name := hashes])
  }

  // A delta-coded K/V buffer: size, keep, the rest, the hash of every chunk.
  function KvB(h: Hashes, s: Bytes, b: Reb, fd: Field, limit: nat): (r: Reb)
    requires InS(s, b) && FieldOk(fd)
    ensures InS(s, r)
  {
    if b.Broken? || b.p + 16 > |s| then Broken else
      var size, keep := Word(s[b.p..b.p + 8]), Word(s[b.p + 8..b.p + 16]);
      if size > limit || keep > size || keep % CHUNK != 0 then Broken else
        var name := NameOf(fd);
        var base := ChunksOf(b.chunks, name);
        if keep / CHUNK > |base| then Broken else
          var fr := Frame(b, U64(size));
          var b1 := SectionB(s, fr.(p := b.p + 16), fd, keep, size);
          HashesB(h, s, b1, name, keep, size, base)
  }

  function FieldB(h: Hashes, s: Bytes, b: Reb, fd: Field, limit: nat): (r: Reb)
    requires InS(s, b) && FieldOk(fd)
    ensures InS(s, r)
  {
    if fd.kind.Kv? then KvB(h, s, b, fd, limit) else WholeB(s, b, fd, limit)
  }

  predicate RecIndexOk(kind: Kind, i: nat) {
    i < TWO64 && (kind.Live? ==> i == 0)
  }

  function FieldsB(h: Hashes, s: Bytes, b: Reb, kind: Kind, i: nat, k: nat, limit: nat): (r: Reb)
    requires InS(s, b) && RecIndexOk(kind, i) && k <= PartCount(kind)
    ensures InS(s, r)
  {
    if k == 0 then b else FieldB(h, s, FieldsB(h, s, b, kind, i, k - 1, limit), Field(kind, i, k - 1), limit)
  }

  function RecB(h: Hashes, s: Bytes, b: Reb, kind: Kind, i: nat, limit: nat): (r: Reb)
    requires InS(s, b) && RecIndexOk(kind, i)
    ensures InS(s, r)
  {
    var b1 := if kind.Kv? then SkipB(s, b, PreLen(kind)) else b;
    var b2 := FieldsB(h, s, b1, kind, i, PartCount(kind), limit);
    if kind.Kv? then b2 else SkipB(s, b2, PostLen(kind))
  }

  function RecsB(h: Hashes, s: Bytes, b: Reb, kind: Kind, n: nat, limit: nat): (r: Reb)
    requires InS(s, b) && n <= TWO64 && !kind.Live?
    ensures InS(s, r)
  {
    if n == 0 then b else RecB(h, s, RecsB(h, s, b, kind, n - 1, limit), kind, n - 1, limit)
  }

  function GroupB(h: Hashes, s: Bytes, b: Reb, kind: Kind, most: nat, limit: nat): (r: Reb)
    requires InS(s, b) && !kind.Live? && most <= TWO64
    ensures InS(s, r)
  {
    var (b1, n) := CountB(s, b);
    if b1.Broken? || n > most then Broken else RecsB(h, s, b1, kind, n, limit)
  }

  function PayloadB(h: Hashes, s: Bytes, b: Reb, limit: nat): (r: Reb)
    requires InS(s, b)
    ensures InS(s, r)
  {
    var b1 := SkipB(s, b, GEOMETRY);
    var b2 := RecB(h, s, b1, Live, 0, limit);
    var b3 := GroupB(h, s, b2, Ckpt, MAX_CKPTS, limit);
    GroupB(h, s, b3, Kv, MAX_LAYERS, limit)
  }

  // Before the payload: the header frame, its payload length still zero.
  function StartReb(h: Hashes, d: Disk, hd: EHeader): Reb
    requires Published(d)
  {
    Frame(Reb(ENGINE_HEADER, [], [], Have(d.state.value.items), d.state.value.chunks, map[], 0, d.secs, []),
          SessHeaderBytes(h, hd.model, hd.config, 0))
  }

  datatype EngineResult = Untouched | Dropped | Rebuilt(disk: Disk, keeps: map<Name, nat>)

  function TrailerOk(h: Hashes, s: Bytes, b: Reb, hd: EHeader): bool
    requires b.Reb? && ENGINE_HEADER <= b.p <= |s|
  {
    && b.p - ENGINE_HEADER == hd.payload
    && b.p + 16 <= |s|
    && Word(s[b.p..b.p + 8]) == h.sess(s[ENGINE_HEADER..b.p]) && s[b.p + 8..b.p + 16] == ENGINE_END
    && b.size + SESS_TRAILER == Int64(hd.fileSize)
  }

  function EngineState(hd: EHeader, b: Reb): State
    requires b.Reb?
  {
    State(hd.model, hd.config, hd.fileSize, [], true, b.items, SaveIdString(hd.new_), b.chunks, true)
  }

  function EngineDisk(h: Hashes, hd: EHeader, b: Reb): Disk
    requires b.Reb? && SESS_HEADER <= |b.frames| && SESS_HEADER <= b.size
  {
    Disk(Some(EngineState(hd, b)),
         Some(SessHeaderBytes(h, hd.model, hd.config, b.size - SESS_HEADER) + b.frames[SESS_HEADER..]),
         b.secs - b.have.Keys)
  }

  // A delta that is malformed, undeclared or against another base leaves the replica as it was;
  // any failure once writing began drops it.
  predicate Applies(h: Hashes, d: Disk, s: Bytes, wantSize: int, wantId: string) {
    var hd := ReadEngineHeader(h, s);
    && hd.Some? && Int64(hd.value.fileSize) == wantSize && SaveIdString(hd.value.new_) == wantId
    && Published(d) && d.state.value.model == hd.value.model && d.state.value.config == hd.value.config
    && d.state.value.saveId == SaveIdString(hd.value.base)
  }

  function EngineReb(h: Hashes, d: Disk, s: Bytes): (r: Reb)
    requires Published(d) && ReadEngineHeader(h, s).Some?
    ensures InS(s, r)
  {
    var hd := ReadEngineHeader(h, s).value;
    PayloadB(h, s, StartReb(h, d, hd), hd.fileSize)
  }

  function PutEngine(h: Hashes, d: Disk, s: Bytes, wantSize: int, wantId: string): EngineResult {
    if !Applies(h, d, s, wantSize, wantId) then Untouched else
      var hd, b := ReadEngineHeader(h, s).value, EngineReb(h, d, s);
      if b.Broken? || b.p < ENGINE_HEADER || |b.frames| < SESS_HEADER || b.size < SESS_HEADER || !TrailerOk(h, s, b, hd) then Dropped
      else Rebuilt(EngineDisk(h, hd, b), b.keeps)
  }

  // ---- Which replica a delta is against ----

  // The number a hexadecimal string stands for.
  function HexValue(s: string): int {
    if s == "" then 0
    else
      var c := s[|s| - 1];
      16 * HexValue(s[..|s| - 1]) + if '0' <= c <= '9' then c as int - '0' as int else c as int - 'a' as int + 10
  }

  lemma {:induction false} HexReads(id: nat, digits: nat)
    requires id < Pow16(digits)
    ensures |Hex(id, digits)| == digits && HexValue(Hex(id, digits)) == id
  {
    if digits > 0 {
      HexReads(id / 16, digits - 1);
      var s := Hex(id, digits);
      assert s[..|s| - 1] == Hex(id / 16, digits - 1);
    }
  }

  function Pow16(n: nat): nat {
    if n == 0 then 1 else 16 * Pow16(n - 1)
  }

  lemma Pow16Value()
    ensures Pow16(16) == TWO64
  {
    assert Pow16(4) == 0x1_0000 by { assert Pow16(2) == 0x100; }
    assert Pow16(8) == 0x1_0000_0000 by { assert Pow16(6) == 0x100_0000; }
    assert Pow16(12) == 0x1_0000_0000_0000 by { assert Pow16(10) == 0x100_0000_0000; }
    assert Pow16(14) == 0x100_0000_0000_0000;
  }

  // A save's identifier is its sixteen digits, and two are one only if their numbers are.
  lemma SaveIdReads(a: nat, b: nat)
    requires a < TWO64 && b < TWO64
    ensures |SaveIdString(a)| == 16 && HexValue(SaveIdString(a)) == a
    ensures SaveIdString(a) == SaveIdString(b) <==> a == b
  {
    Pow16Value();
    HexReads(a, 16);
    HexReads(b, 16);
  }

  // A delta leaves the replica as it was if the save, model or configuration in its header is not the
  // replica's, or the save it says it builds is not the one declared, or nothing is published.
  lemma AnotherBase(h: Hashes, d: Disk, s: Bytes, wantSize: int, wantId: string, held: nat, new_: nat)
    requires |s| >= 80 && held < TWO64 && new_ < TWO64 && wantId == SaveIdString(new_)
    requires d.state.Some? ==> d.state.value.saveId == SaveIdString(held)
    requires
      || d.state.None? || !d.state.value.complete
      || Word(s[16..24]) != d.state.value.model || Word(s[24..32]) != d.state.value.config
      || Word(s[40..48]) != held || Word(s[48..56]) != new_ || Int64(Word(s[56..64])) != wantSize
    ensures PutEngine(h, d, s, wantSize, wantId) == Untouched
  {
    hide SaveIdString;
    Pow256Values();
    SaveIdReads(Word(s[40..48]), held);
    SaveIdReads(Word(s[48..56]), new_);
  }
}

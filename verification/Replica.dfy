/**
 A receiver's replica of one session file (internal/kvshare/store.go), as values: what the key's
 directory holds, what a delta stream makes of it, the manifest, and the assembled file.
 */
module Replica {
  import opened Bytes
  import opened Options
  import opened Hashing
  import opened SessFile
  import opened SectionNames
  import opened Delta
  import opened DeltaStream

  // An item of the file in order; frame is its place in frames.bin (framing only).
  datatype RItem = RItem(section: Name, len: nat, frame: nat)

  datatype State = State(model: nat, config: nat, size: nat, digest: Bytes, complete: bool, items: seq<RItem>,
                         saveId: string, chunks: map<Name, seq<Word64>>, trailer: bool)

  // The key's directory: state.json, frames.bin and one file per section.
  datatype Disk = Disk(state: Option<State>, frames: Option<Bytes>, secs: map<Name, Bytes>)

  const ABSENT: Disk := Disk(None, None, map[])

  // The size, digest and save id a request declares up front.
  datatype FileMeta = FileMeta(size: nat, digest: Digest, saveId: string)

  predicate Published(d: Disk) {
    d.state.Some? && d.state.value.complete
  }

  // ---- Putting a delta ----

  // The length of each section; a later item of the same name replaces an earlier one.
  function Have(items: seq<RItem>): map<Name, nat> {
    if items == [] then map[] else
      var last := items[|items| - 1];
      if last.section == "" then Have(items[..|items| - 1])
      else Have(items[..|items| - 1])[last.section := last.len]
  }

  function HaveLen(have: map<Name, nat>, name: Name): nat {
    if name in have then have[name] else 0
  }

  function FileOf(secs: map<Name, Bytes>, name: Name): Bytes {
    if name in secs then secs[name] else []
  }

  // The receiver in the middle of a stream.
  datatype Acc = Acc(cur: Cursor, items: seq<RItem>, frames: Bytes, secs: map<Name, Bytes>,
                     have: map<Name, nat>, keeps: map<Name, nat>)
  datatype Step = Stop(acc: Acc) | Go(acc: Acc) | Refuse

  function FrameStep(a: Acc, it: Item, data: Bytes, c: Cursor): Acc {
    a.(cur := c, items := a.items + [RItem("", it.len, |a.frames|)], frames := a.frames + data)
  }

  function PatchStep(a: Acc, it: Item, data: Bytes, c: Cursor): Acc {
    Acc(c, a.items + [RItem(it.section, it.len, 0)], a.frames,
        a.secs[it.section := Truncate(FileOf(a.secs, it.section), it.keep) + data],
        a.have - {it.section}, a.keeps[it.section := it.keep])
  }

  function PutStep(s: Bytes, hd: Header, a: Acc): (r: Step)
    requires a.cur.pos <= |s|
    ensures !r.Refuse? ==> r.acc.cur.pos <= |s|
    ensures r.Go? ==> r.acc.cur.left < a.cur.left
    ensures r.Stop? ==> r.acc == a
  {
    var (r, c) := NextItem(s, hd, a.cur);
    match r
    case End => Stop(a)
    case Fail => Refuse
    case Entry(it) =>
      var data := Available(s, c.pos, it.len - it.keep);
      var c1 := c.(pos := c.pos + |data|);
      if it.section == "" then Go(FrameStep(a, it, data, c1))
      else if it.keep > HaveLen(a.have, it.section) || !ValidKey(it.section) || |data| != it.len - it.keep then Refuse
      else Go(PatchStep(a, it, data, c1))
  }

  function PutRun(s: Bytes, hd: Header, a: Acc): Option<Acc>
    requires a.cur.pos <= |s|
    decreases a.cur.left
  {
    match PutStep(s, hd, a)
    case Stop(b) => Some(b)
    case Refuse => None
    case Go(b) => PutRun(s, hd, b)
  }

  // The replica a put may keep from: a complete one of the same model and configuration.
  function Base(d: Disk, model: nat, config: nat): Option<State> {
    if Published(d) && d.state.value.model == model && d.state.value.config == config then d.state else None
  }

  // A state that cannot be a base is removed with its files; files without a state stay.
  function StartAcc(d: Disk, hd: Header): Acc {
    var base := Base(d, hd.model, hd.config);
    Acc(Start(hd), [], [], if d.state.Some? && base.None? then map[] else d.secs,
        if base.Some? then Have(base.value.items) else map[], map[])
  }

  function NewState(hd: Header, items: seq<RItem>, saveId: string): State {
    State(hd.model, hd.config, hd.size, hd.digest, true, items, saveId, map[], false)
  }

  function PutHeader(s: Bytes, want: Option<FileMeta>): Option<Header> {
    var hd := ReadHeader(s);
    if hd.None? || (want.Some? && (hd.value.size != want.value.size || hd.value.digest != want.value.digest))
    then None else hd
  }

  function PutAcc(d: Disk, s: Bytes, want: Option<FileMeta>): (r: Option<Acc>)
    ensures r.Some? ==> PutHeader(s, want).Some?
  {
    var hd := PutHeader(s, want);
    if hd.None? then None else PutRun(s, hd.value, StartAcc(d, hd.value))
  }

  function SaveIdOf(want: Option<FileMeta>): string {
    if want.Some? then want.value.saveId else ""
  }

  // The directory when the last write of a put is done.
  function PutDisk(d: Disk, s: Bytes, want: Option<FileMeta>): Option<Disk> {
    var a := PutAcc(d, s, want);
    if a.None? then None else
      Some(Disk(Some(NewState(PutHeader(s, want).value, a.value.items, SaveIdOf(want))),
                Some(a.value.frames), a.value.secs - a.value.have.Keys))
  }

  // ---- Assembling ----

  function PieceOf(it: RItem, frames: Bytes, secs: map<Name, Bytes>): (r: Option<Bytes>)
    ensures r.Some? ==> |r.value| == it.len
  {
    if it.section == "" then
      if it.len == 0 then Some([])
      else if it.frame + it.len <= |frames| then Some(frames[it.frame..it.frame + it.len]) else None
    else if ValidKey(it.section) && it.section in secs && it.len <= |secs[it.section]|
    then Some(secs[it.section][..it.len]) else None
  }

  function Assemble(items: seq<RItem>, frames: Bytes, secs: map<Name, Bytes>): (r: Option<Bytes>)
    ensures r.Some? ==> |r.value| == Total(items)
  {
    if items == [] then Some([]) else
      var init, p := Assemble(items[..|items| - 1], frames, secs), PieceOf(items[|items| - 1], frames, secs);
      if init.None? || p.None? then None else Some(init.value + p.value)
  }

  function Total(items: seq<RItem>): nat {
    if items == [] then 0 else Total(items[..|items| - 1]) + items[|items| - 1].len
  }

  // What FileDigest hashes when the file may be shorter than size: the missing bytes are
  // whatever its buffer held.
  function Fill(x: Bytes, size: nat, stale: Bytes): (r: Bytes)
    ensures |r| == size
    ensures |x| == size ==> r == x
  {
    if |x| >= size then x[..size]
    else x + seq(size - |x|, i requires 0 <= i => if i < |stale| then stale[i] else 0)
  }

  lemma {:induction false} AssembleSame(items: seq<RItem>, frames: Bytes, secs: map<Name, Bytes>, more: Bytes, secs': map<Name, Bytes>)
    requires Assemble(items, frames, secs).Some?
    requires forall i :: 0 <= i < |items| && items[i].section != "" && items[i].section in secs ==>
      items[i].section in secs' && secs'[items[i].section] == secs[items[i].section]
    ensures Assemble(items, frames + more, secs') == Assemble(items, frames, secs)
  {
    if items != [] {
      var n := |items| - 1;
      AssembleSame(items[..n], frames, secs, more, secs');
      var it := items[n];
      if it.section == "" && it.len > 0 {
        assert (frames + more)[it.frame..it.frame + it.len] == frames[it.frame..it.frame + it.len];
      }
    }
  }

  lemma AssemblePush(items: seq<RItem>, it: RItem, frames: Bytes, secs: map<Name, Bytes>)
    ensures Assemble(items + [it], frames, secs) ==
      var a, p := Assemble(items, frames, secs), PieceOf(it, frames, secs);
      if a.None? || p.None? then None else Some(a.value + p.value)
  {
    assert (items + [it])[..|items|] == items;
  }

  lemma TotalPush(items: seq<RItem>, it: RItem)
    ensures Total(items + [it]) == Total(items) + it.len
  {
    assert (items + [it])[..|items|] == items;
  }

  lemma HavePush(items: seq<RItem>, it: RItem)
    ensures Have(items + [it]) == if it.section == "" then Have(items) else Have(items)[it.section := it.len]
  {
    assert (items + [it])[..|items|] == items;
  }

  // The STRSESS trailer computed on assembly: the payload's hash and the end marker.
  const SESS_END: Bytes := [83, 84, 82, 83, 69, 78, 68, 1]  // "STRSEND\x01"

  function Trailer(h: Hashes, x: Bytes): (r: Bytes)
    requires |x| >= SESS_HEADER
    ensures |r| == SESS_TRAILER
  {
    U64(h.sess(x[SESS_HEADER..])) + SESS_END
  }

  // Item k's bytes in the assembled file.
  function Span(items: seq<RItem>, x: Bytes, k: nat): (r: Bytes)
    requires k < |items| && |x| == Total(items)
    ensures |r| == items[k].len
  {
    TotalSplit(items, k);
    x[Total(items[..k])..Total(items[..k]) + items[k].len]
  }

  lemma {:induction false} TotalSplit(items: seq<RItem>, k: nat)
    requires k < |items|
    ensures Total(items[..k]) + items[k].len <= Total(items)
  {
    var n := |items| - 1;
    if k < n {
      TotalSplit(items[..n], k);
      assert items[..n][..k] == items[..k];
    }
  }

  // Every recorded chunk hash is the hash of that chunk.
  predicate ChunksOk(h: Hashes, items: seq<RItem>, chunks: map<Name, seq<Word64>>, x: Bytes)
    requires |x| == Total(items)
  {
    forall k :: 0 <= k < |items| && items[k].section != "" && items[k].section in chunks ==>
      ChunkHashes(h, Span(items, x, k)) == chunks[items[k].section]
  }

  function Seal(h: Hashes, st: State, x: Bytes): Option<Bytes>
    requires |x| == Total(st.items)
  {
    if |x| >= SESS_HEADER && ChunksOk(h, st.items, st.chunks, x) && |x| + SESS_TRAILER == st.size
    then Some(x + Trailer(h, x)) else None
  }

  // The session file a replica is published as, if it is published at all.
  function Materialized(h: Hashes, d: Disk, stale: Bytes): Option<Bytes> {
    if !Published(d) || d.frames.None? then None else
      var st := d.state.value;
      var x := Assemble(st.items, d.frames.value, d.secs);
      if x.None? then None
      else if st.trailer then Seal(h, st, x.value)
      else if h.digest(Fill(x.value, st.size, stale)) == st.digest then x else None
  }

  // ---- The manifest ----

  function SectionHashes(h: Hashes, it: RItem, secs: map<Name, Bytes>): Option<seq<Bytes>> {
    if !ValidKey(it.section) || it.section !in secs then None else BlockHashes(h, secs[it.section], 0, it.len)
  }

  function ManSections(h: Hashes, items: seq<RItem>, secs: map<Name, Bytes>): Option<seq<SectionManifest>> {
    if items == [] then Some([]) else
      var init, it := ManSections(h, items[..|items| - 1], secs), items[|items| - 1];
      if init.None? || it.section == "" then init else
        var b := SectionHashes(h, it, secs);
        if b.None? then None else Some(init.value + [SectionManifest(it.section, it.len, b.value)])
  }

  // The manifest computed from the files.
  function ManifestOf(h: Hashes, d: Disk): Option<Manifest> {
    if !Published(d) then None else
      var st := d.state.value;
      var ms := ManSections(h, st.items, d.secs);
      if ms.None? then None else Some(Manifest(st.model, st.config, st.size, ms.value, st.saveId))
  }

  // ... and with the hashes of the whole blocks below keep taken from the previous manifest.
  function ReuseHashes(h: Hashes, file: Bytes, keep: nat, n: nat, prev: seq<Bytes>): Option<seq<Bytes>> {
    var reuse := if keep / BLOCK <= |prev| then keep / BLOCK else |prev|;
    if reuse * BLOCK > n then None else
      var tail := BlockHashes(h, file, reuse * BLOCK, n - reuse * BLOCK);
      if tail.None? then None else Some(prev[..reuse] + tail.value)
  }

  function FinishSections(h: Hashes, items: seq<RItem>, secs: map<Name, Bytes>, keeps: map<Name, nat>,
                          prev: map<Name, seq<Bytes>>): Option<seq<SectionManifest>>
  {
    if items == [] then Some([]) else
      var init, it := FinishSections(h, items[..|items| - 1], secs, keeps, prev), items[|items| - 1];
      if init.None? || it.section == "" then init
      else if !ValidKey(it.section) || it.section !in secs then None
      else
        var b := ReuseHashes(h, secs[it.section], HaveLen(keeps, it.section), it.len,
                             if it.section in prev then prev[it.section] else []);
        if b.None? then None else Some(init.value + [SectionManifest(it.section, it.len, b.value)])
  }

  // ---- Recorded chunk hashes ----

  // Every chunk hash recorded for a section that is held is the hash of that chunk.
  ghost predicate ChunksHeld(h: Hashes, chunks: map<Name, seq<Word64>>, secs: map<Name, Bytes>) {
    forall n :: n in chunks && n in secs ==> chunks[n] == ChunkHashes(h, secs[n])
  }

  // Only K/V sections have chunk hashes.
  ghost predicate KvOnly(chunks: map<Name, seq<Word64>>) {
    forall n :: n in chunks ==> IsKV(n)
  }

  // ---- Which replica a put is against ----

  // Nothing is kept of a replica that is not complete or of another model or configuration: the put
  // goes as on an empty directory.
  lemma OtherBase(d: Disk, s: Bytes, want: Option<FileMeta>)
    requires d.state.Some? && |s| >= 72
    requires !d.state.value.complete || d.state.value.model != Word(s[48..56]) || d.state.value.config != Word(s[56..64])
    ensures PutDisk(d, s, want) == PutDisk(ABSENT, s, want)
  {
    hide PutRun;
  }

  // A put's header is taken exactly if the stream has one, of at most 2^20 items and a size that is not
  // negative, and of the size and digest declared, if any were.
  lemma HeaderTaken(s: Bytes, want: Option<FileMeta>)
    ensures PutHeader(s, want).Some? <==>
      && |s| >= 72 && s[..8] == Ascii("KVDELTA2") && Word(s[8..16]) < 0x8000_0000_0000_0000 && Word(s[64..72]) <= 0x10_0000
      && (want.Some? ==> Word(s[8..16]) == want.value.size && s[16..48] == want.value.digest)
  {
    assert Ascii("KVDELTA2") == DELTA_MAGIC;
    if |s| >= 72 { Pow256Values(); }
  }

  // A put that is taken leaves the size, digest, model and configuration its stream begins with, which
  // are those declared, and the save declared.
  lemma PutDeclared(d: Disk, s: Bytes, want: Option<FileMeta>)
    requires PutDisk(d, s, want).Some?
    ensures |s| >= 72 && s[..8] == Ascii("KVDELTA2")
    ensures var st := PutDisk(d, s, want).value.state.value;
      && st.size == Word(s[8..16]) && st.digest == s[16..48] && st.model == Word(s[48..56]) && st.config == Word(s[56..64])
      && (want.Some? ==> st.size == want.value.size && st.digest == want.value.digest && st.saveId == want.value.saveId)
      && st.complete
  {
    hide PutRun;
    assert Ascii("KVDELTA2") == DELTA_MAGIC;
  }
}

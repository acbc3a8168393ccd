/**
 The wire format of a delta (internal/kvshare/delta.go): writing a plan, and the reader that
 walks any byte stream item by item. The reader takes the end of the input between two fields
 for the end of the delta, as io.ReadFull reports both with io.EOF.
 */
module DeltaStream {
  import opened Bytes
  import opened Options
  import opened Hashing
  import opened SectionNames
  import opened Delta

  datatype Header = Header(size: nat, digest: Digest, model: nat, config: nat, items: nat)

  // ---- Writing ----

  function HeaderBytes(p: Plan): (r: Bytes)
    ensures |r| == DELTA_HEADER
  {
    DELTA_MAGIC + U64(p.size) + p.digest + U64(p.model) + U64(p.config) + U64(|p.items|)
  }

  function NewBytes(f: Bytes, it: Item): Bytes
    requires it.off + it.len <= |f| && it.keep <= it.len
  {
    f[it.off + it.keep..it.off + it.len]
  }

  function ItemHead(it: Item): Bytes {
    LE(|it.section|, 2) + Ascii(it.section) + (U64(it.len) + U64(it.keep))
  }

  function ItemBytes(f: Bytes, it: Item): Bytes
    requires it.off + it.len <= |f| && it.keep <= it.len
  {
    ItemHead(it) + NewBytes(f, it)
  }

  predicate Inside(f: Bytes, items: seq<Item>) {
    forall k :: 0 <= k < |items| ==> items[k].off + items[k].len <= |f| && items[k].keep <= items[k].len
  }

  function ItemsBytes(f: Bytes, items: seq<Item>): Bytes
    requires Inside(f, items)
  {
    if items == [] then [] else
      ItemsBytes(f, items[..|items| - 1]) + ItemBytes(f, items[|items| - 1])
  }

  function Stream(f: Bytes, p: Plan): Bytes
    requires Inside(f, p.items)
  {
    HeaderBytes(p) + ItemsBytes(f, p.items)
  }

  lemma Assoc(a: Bytes, b: Bytes, c: Bytes, d: Bytes)
    ensures a + b + c + d == a + (b + (c + d))
  {
  }

  method WriteDelta(f: Bytes, p: Plan) returns (w: Bytes)
    requires Inside(f, p.items)
    ensures w == Stream(f, p)
  {
    hide HeaderBytes, LE, Ascii, U64;
    w := HeaderBytes(p);
    for k := 0 to |p.items|
      invariant w == HeaderBytes(p) + ItemsBytes(f, p.items[..k])
    {
      var it := p.items[k];
      assert p.items[..k + 1][..k] == p.items[..k];
      var rec := LE(|it.section|, 2) + Ascii(it.section) + (U64(it.len) + U64(it.keep));
      var data := f[it.off + it.keep..it.off + it.len];
      w := w + rec;
      w := w + data;
      Assoc(HeaderBytes(p), ItemsBytes(f, p.items[..k]), rec, data);
    }
    assert p.items[..|p.items|] == p.items;
  }

  // ---- Reading ----

  datatype Full = Got(data: Bytes) | Eof | Short

  // io.ReadFull: Eof only when nothing at all was left to read.
  function ReadFull(s: Bytes, pos: nat, n: nat): (r: Full)
    requires pos <= |s|
    ensures r.Got? ==> pos + n <= |s| && |r.data| == n
  {
    if pos + n <= |s| then Got(s[pos..pos + n]) else if pos == |s| then Eof else Short
  }

  function ReadHeader(s: Bytes): Option<Header> {
    if |s| < DELTA_HEADER || s[..8] != DELTA_MAGIC then None else
      var size, items := Int64(Word(s[8..16])), Word(s[64..72]);
      if size < 0 || items > MAX_ITEMS then None
      else Some(Header(size, s[16..48], Word(s[48..56]), Word(s[56..64]), items))
  }

  // pos in the stream, items still to come, and bytes of the new file accounted for.
  datatype Cursor = Cursor(pos: nat, left: nat, built: nat)
  datatype Reading = End | Fail | Entry(item: Item)

  function Start(hd: Header): Cursor {
    Cursor(DELTA_HEADER, hd.items, 0)
  }

  predicate AcceptItem(hd: Header, c: Cursor, name: Name, len: int, keep: int) {
    0 <= len && 0 <= keep <= len && len <= hd.size - c.built && !(name == "" && keep != 0)
  }

  function NextItem(s: Bytes, hd: Header, c: Cursor): (r: (Reading, Cursor))
    requires c.pos <= |s|
    ensures r.1.pos <= |s|
    ensures r.0.Entry? ==> c.left > 0 && r.1.left == c.left - 1 && r.1.built == c.built + r.0.item.len <= hd.size
    ensures r.0.Entry? ==> r.0.item.off == c.built && r.0.item.keep <= r.0.item.len && (r.0.item.section == "" ==> r.0.item.keep == 0)
  {
    if c.left == 0 then (if c.built != hd.size then Fail else End, c) else
      var c1 := c.(left := c.left - 1);
      match ReadFull(s, c.pos, 2)
      case Eof => (End, c1)
      case Short => (Fail, c1)
      case Got(nl) =>
        var n := Word(nl);
        match ReadFull(s, c.pos + 2, n)
        case Eof => (End, c1)
        case Short => (Fail, c1)
        case Got(name) =>
          match ReadFull(s, c.pos + 2 + n, 16)
          case Eof => (End, c1)
          case Short => (Fail, c1)
          case Got(lk) =>
            var len, keep := Int64(Word(lk[..8])), Int64(Word(lk[8..]));
            if AcceptItem(hd, c, Text(name), len, keep)
            then (Entry(Item(Text(name), c.built, len, keep)), Cursor(c.pos + 18 + n, c.left - 1, c.built + len))
            else (Fail, c1)
  }

  // What a reader limited to n bytes yields: fewer only at the end of the stream.
  function Available(s: Bytes, pos: nat, n: nat): (r: Bytes)
    requires pos <= |s|
    ensures |r| <= n && pos + |r| <= |s|
  {
    if pos + n <= |s| then s[pos..pos + n] else s[pos..]
  }

  class DeltaReader {
    const s: Bytes
    const header: Header
    var pos: nat
    var left: nat
    var built: nat

    ghost predicate Valid()
      reads this
    {
      pos <= |s|
    }

    ghost function Cur(): Cursor
      reads this
    {
      Cursor(pos, left, built)
    }

    constructor (stream: Bytes, hd: Header)
      requires ReadHeader(stream) == Some(hd)
      ensures Valid() && s == stream && header == hd && Cur() == Start(hd)
    {
      s, header, pos, left, built := stream, hd, DELTA_HEADER, hd.items, 0;
    }

    method Next() returns (r: Reading)
      requires Valid()
      modifies this
      ensures Valid() && (r, Cur()) == NextItem(s, header, old(Cur()))
    {
      if left == 0 {
        return if built != header.size then Fail else End;
      }
      left := left - 1;
      var nl := ReadFull(s, pos, 2);
      if !nl.Got? {
        return if nl.Eof? then End else Fail;
      }
      var n := Word(nl.data);
      var name := ReadFull(s, pos + 2, n);
      if !name.Got? {
        return if name.Eof? then End else Fail;
      }
      var lk := ReadFull(s, pos + 2 + n, 16);
      if !lk.Got? {
        return if lk.Eof? then End else Fail;
      }
      var len, keep := Int64(Word(lk.data[..8])), Int64(Word(lk.data[8..]));
      if !AcceptItem(header, Cursor(pos, left, built), Text(name.data), len, keep) {
        return Fail;
      }
      r := Entry(Item(Text(name.data), built, len, keep));
      pos, built := pos + 18 + n, built + len;
    }

    // The item's new bytes, which the caller consumes before the next call.
    method Take(n: nat) returns (data: Bytes)
      requires Valid()
      modifies this`pos
      ensures Valid() && data == Available(s, old(pos), n) && pos == old(pos) + |data|
    {
      data := Available(s, pos, n);
      pos := pos + |data|;
    }
  }

  // ---- Reading back what was written ----

  lemma HeaderReads(p: Plan, rest: Bytes)
    requires PlanOk(p)
    ensures ReadHeader(HeaderBytes(p) + rest) == Some(Header(p.size, p.digest, p.model, p.config, |p.items|))
  {
    hide U64, Word;
    var s := HeaderBytes(p) + rest;
    assert s[..8] == DELTA_MAGIC;
    assert s[8..16] == U64(p.size) && s[16..48] == p.digest;
    assert s[48..56] == U64(p.model) && s[56..64] == U64(p.config) && s[64..72] == U64(|p.items|);
    U64Word(p.size);
    U64Word(p.model);
    U64Word(p.config);
    U64Word(|p.items|);
  }

  // Where an item's head stands in a stream, Next returns that item.
  lemma NextReads(s: Bytes, hd: Header, c: Cursor, it: Item)
    requires c.left > 0 && it.off == c.built && c.built + it.len <= hd.size < TWO63 && ItemOk(it)
    requires At(s, c.pos, ItemHead(it))
    ensures c.pos <= |s|
    ensures NextItem(s, hd, c) == (Entry(it), Cursor(c.pos + |ItemHead(it)|, c.left - 1, c.built + it.len))
  {
    hide Word, LE, U64, Text, Ascii;
    var n := |it.section|;
    var a, b, d := LE(n, 2), Ascii(it.section), U64(it.len) + U64(it.keep);
    AtSplit(s, c.pos, a + b, d);
    AtSplit(s, c.pos, a, b);
    assert ReadFull(s, c.pos, 2) == Got(a);
    assert ReadFull(s, c.pos + 2, n) == Got(b);
    assert ReadFull(s, c.pos + 2 + n, 16) == Got(d);
    Pow256Values();
    WordOfLE(n, 2);
    TextOfAscii(it.section);
    assert d[..8] == U64(it.len) && d[8..] == U64(it.keep);
    U64Word(it.len);
    U64Word(it.keep);
  }

  function ReadAll(s: Bytes, hd: Header, c: Cursor): Option<seq<(Item, Bytes)>>
    requires c.pos <= |s|
    decreases c.left
  {
    var (r, c1) := NextItem(s, hd, c);
    match r
    case End => Some([])
    case Fail => None
    case Entry(it) =>
      var data := Available(s, c1.pos, it.len - it.keep);
      var rest := ReadAll(s, hd, c1.(pos := c1.pos + |data|));
      if rest.None? then None else Some([(it, data)] + rest.value)
  }

  // The place of item k in the stream.
  function ItemPos(f: Bytes, p: Plan, k: nat): nat
    requires Inside(f, p.items) && k <= |p.items|
  {
    DELTA_HEADER + |ItemsBytes(f, p.items[..k])|
  }

  function CursorAt(f: Bytes, p: Plan, k: nat): Cursor
    requires Inside(f, p.items) && k <= |p.items|
  {
    Cursor(ItemPos(f, p, k), |p.items| - k, if k == |p.items| then p.size else p.items[k].off)
  }

  lemma {:induction false} ItemsAt(f: Bytes, items: seq<Item>, k: nat)
    requires Inside(f, items) && k < |items|
    ensures At(ItemsBytes(f, items), |ItemsBytes(f, items[..k])|, ItemBytes(f, items[k]))
    decreases |items|
  {
    hide ItemBytes;
    var n := |items| - 1;
    if k < n {
      ItemsAt(f, items[..n], k);
      assert items[..n][..k] == items[..k];
    }
  }

  lemma ItemPosNext(f: Bytes, p: Plan, k: nat)
    requires Inside(f, p.items) && k < |p.items|
    ensures ItemPos(f, p, k + 1) == ItemPos(f, p, k) + |ItemBytes(f, p.items[k])|
  {
    assert p.items[..k + 1][..k] == p.items[..k];
  }

  lemma StreamAt(f: Bytes, p: Plan, k: nat)
    requires Inside(f, p.items) && k < |p.items|
    ensures At(Stream(f, p), ItemPos(f, p, k), ItemBytes(f, p.items[k]))
  {
    hide ItemBytes, HeaderBytes;
    ItemsAt(f, p.items, k);
    var a, b := ItemsBytes(f, p.items), |ItemsBytes(f, p.items[..k])|;
    var x := ItemBytes(f, p.items[k]);
    assert Stream(f, p)[DELTA_HEADER + b..DELTA_HEADER + b + |x|] == a[b..b + |x|];
  }

  // One item read back, from any stream it stands in: the item, then its new bytes, and the
  // cursor at the next.
  lemma EntryReads(s: Bytes, f: Bytes, p: Plan, hd: Header, k: nat)
    requires PlanOk(p) && Inside(f, p.items) && k < |p.items| && hd.size == p.size
    requires At(s, ItemPos(f, p, k), ItemBytes(f, p.items[k]))
    ensures var c := CursorAt(f, p, k);
      var it := p.items[k];
      var q := c.pos + |ItemHead(it)|;
      && c.pos <= q <= |s|
      && NextItem(s, hd, c) == (Entry(it), Cursor(q, c.left - 1, c.built + it.len))
      && Available(s, q, it.len - it.keep) == NewBytes(f, it)
      && CursorAt(f, p, k + 1) == Cursor(q + |NewBytes(f, it)|, c.left - 1, c.built + it.len)
  {
    hide ItemHead, ItemsBytes, ItemOk, NextItem;
    var c, it := CursorAt(f, p, k), p.items[k];
    AtSplit(s, c.pos, ItemHead(it), NewBytes(f, it));
    assert c.built + it.len <= p.size by {
      TilesBelow(p.items, p.size, k);
    }
    NextReads(s, hd, c, it);
    ItemPosNext(f, p, k);
  }

  lemma {:induction false} TilesBelow(items: seq<Item>, size: nat, k: nat)
    requires Tiles(items, size) && k < |items|
    ensures items[k].off + items[k].len <= size
    decreases |items| - k
  {
    if k + 1 < |items| {
      TilesBelow(items, size, k + 1);
      assert items[k + 1].off == items[k].off + items[k].len;
    }
  }

  function EntriesFrom(f: Bytes, items: seq<Item>, k: nat): (r: seq<(Item, Bytes)>)
    requires Inside(f, items) && k <= |items|
    ensures |r| == |items| - k
    ensures forall i :: 0 <= i < |r| ==> r[i] == (items[k + i], NewBytes(f, items[k + i]))
    decreases |items| - k
  {
    if k == |items| then [] else [(items[k], NewBytes(f, items[k]))] + EntriesFrom(f, items, k + 1)
  }

  lemma {:induction false} ReadsFrom(f: Bytes, p: Plan, hd: Header, k: nat)
    requires PlanOk(p) && Inside(f, p.items) && k <= |p.items| && hd.size == p.size
    ensures CursorAt(f, p, k).pos <= |Stream(f, p)|
    ensures ReadAll(Stream(f, p), hd, CursorAt(f, p, k)) == Some(EntriesFrom(f, p.items, k))
    decreases |p.items| - k
  {
    hide ItemHead, Stream, ItemsBytes, ItemOk, NextItem, NewBytes, Available, CursorAt;
    if k < |p.items| {
      StreamAt(f, p, k);
      EntryReads(Stream(f, p), f, p, hd, k);
      ReadsFrom(f, p, hd, k + 1);
    } else {
      LastCursor(f, p, hd);
    }
  }

  lemma LastCursor(f: Bytes, p: Plan, hd: Header)
    requires Inside(f, p.items) && hd.size == p.size
    ensures var c := CursorAt(f, p, |p.items|);
      c.pos == |Stream(f, p)| && NextItem(Stream(f, p), hd, c) == (End, c)
  {
    assert p.items[..|p.items|] == p.items;
  }

  // Reading back a written plan gives the plan: its header, its items in order, their new bytes.
  lemma RoundTrip(f: Bytes, p: Plan)
    requires PlanOk(p) && Inside(f, p.items)
    ensures var s := Stream(f, p);
      var hd := Header(p.size, p.digest, p.model, p.config, |p.items|);
      && ReadHeader(s) == Some(hd)
      && Start(hd).pos <= |s|
      && ReadAll(s, hd, Start(hd)) == Some(EntriesFrom(f, p.items, 0))
  {
    hide HeaderBytes, ReadAll, ItemBytes;
    var hd := Header(p.size, p.digest, p.model, p.config, |p.items|);
    HeaderReads(p, ItemsBytes(f, p.items));
    ReadsFrom(f, p, hd, 0);
    assert p.items[..0] == [];
    assert CursorAt(f, p, 0) == Start(hd);
  }

  function ItemsOf(es: seq<(Item, Bytes)>): (r: seq<Item>)
    ensures |r| == |es|
    ensures forall i :: 0 <= i < |es| ==> r[i] == es[i].0
  {
    seq(|es|, i requires 0 <= i < |es| => es[i].0)
  }

  function Built(es: seq<(Item, Bytes)>): nat {
    if es == [] then 0 else es[|es| - 1].0.off + es[|es| - 1].0.len
  }

  // Whatever the stream, accepted items follow one another from where the cursor stood, none
  // keeps more than it is long, and none passes the declared size.
  lemma {:induction false} ReadAllTiles(s: Bytes, hd: Header, c: Cursor)
    requires c.pos <= |s| && c.built <= hd.size && ReadAll(s, hd, c).Some?
    ensures var es := ReadAll(s, hd, c).value;
      && |es| <= c.left
      && (forall i :: 0 <= i < |es| ==> es[i].0.keep <= es[i].0.len && (es[i].0.section == "" ==> es[i].0.keep == 0))
      && (es != [] ==> es[0].0.off == c.built && Built(es) <= hd.size)
      && (forall i :: 0 < i < |es| ==> es[i].0.off == es[i - 1].0.off + es[i - 1].0.len)
      && (|es| == c.left ==> (if es == [] then c.built else Built(es)) == hd.size)
    decreases c.left
  {
    hide ReadFull, Word, Text, AcceptItem;
    var (r, c1) := NextItem(s, hd, c);
    if r.Entry? {
      var data := Available(s, c1.pos, r.item.len - r.item.keep);
      ReadAllTiles(s, hd, c1.(pos := c1.pos + |data|));
    }
  }

  // Every stream read to the end gives items that tile a prefix of the declared file: as much of
  // it as they build, and all of it if as many items came as the header counts.
  lemma AcceptedTiles(s: Bytes, hd: Header)
    requires ReadHeader(s) == Some(hd) && ReadAll(s, hd, Start(hd)).Some?
    ensures var es := ReadAll(s, hd, Start(hd)).value;
      && |es| <= hd.items && Built(es) <= hd.size && Tiles(ItemsOf(es), Built(es))
      && (Tiles(ItemsOf(es), hd.size) <==> Built(es) == hd.size)
      && (|es| == hd.items ==> Tiles(ItemsOf(es), hd.size))
  {
    hide ReadAll;
    ReadAllTiles(s, hd, Start(hd));
    var es := ReadAll(s, hd, Start(hd)).value;
    assert Tiles(ItemsOf(es), Built(es));
  }

  // A stream cut between two items is read to the end all the same: here a delta of one item
  // that brings none, and leaves a one-byte file unbuilt.
  lemma CutStreamAccepted(digest: Digest)
    ensures var s := DELTA_MAGIC + U64(1) + digest + U64(0) + U64(0) + U64(1);
      var hd := Header(1, digest, 0, 0, 1);
      && ReadHeader(s) == Some(hd) && |s| == DELTA_HEADER
      && ReadAll(s, hd, Start(hd)) == Some([])
      && !Tiles([], hd.size)
  {
    var p := Plan([Item("", 0, 1, 0)], 1, digest, 0, 0);
    HeaderReads(p, []);
    hide U64, ReadHeader;
    var s := DELTA_MAGIC + U64(1) + digest + U64(0) + U64(0) + U64(1);
    assert s + [] == s;
  }

  // ---- The bytes ----

  // The header: a mark, the file's size and digest, the model, the configuration and how many items.
  lemma HeaderLayout(p: Plan)
    ensures var r := HeaderBytes(p);
      && |r| == 72 && r[..8] == Ascii("KVDELTA2") && r[8..16] == U64(p.size) && r[16..48] == p.digest
      && r[48..56] == U64(p.model) && r[56..64] == U64(p.config) && r[64..72] == U64(|p.items|)
  {
    hide U64;
    assert Ascii("KVDELTA2") == DELTA_MAGIC;
  }

  // An item: how long its name is, the name, its length, what is kept of it, and the rest of it.
  lemma ItemLayout(f: Bytes, it: Item)
    requires it.off + it.len <= |f| && it.keep <= it.len
    ensures var r, n := ItemBytes(f, it), |it.section|;
      && |r| == n + 18 + it.len - it.keep && r[..2] == LE(n, 2) && r[2..2 + n] == Ascii(it.section)
      && r[2 + n..10 + n] == U64(it.len) && r[10 + n..18 + n] == U64(it.keep)
      && r[18 + n..] == f[it.off + it.keep..it.off + it.len]
  {
    hide U64, LE;
    var a, b, c, d := LE(|it.section|, 2), Ascii(it.section), U64(it.len), U64(it.keep);
    assert ItemBytes(f, it) == a + b + c + d + NewBytes(f, it);
  }
}

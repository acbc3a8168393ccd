/**
 Deltas between session files (internal/kvshare/delta.go): what a receiver's manifest says, how
 Diff plans a new file against it, and the byte stream that carries the plan.
 */
module Delta {
  import opened Bytes
  import opened Options
  import opened Hashing
  import opened SectionNames

  datatype SectionManifest = SectionManifest(name: Name, len: nat, blocks: seq<Bytes>)
  datatype Manifest = Manifest(model: nat, config: nat, size: nat, sections: seq<SectionManifest>, saveId: string)

  // One step of a plan: framing if it has no section name; otherwise keep is how much of the
  // receiver's file stays.
  datatype Item = Item(section: Name, off: nat, len: nat, keep: nat)
  datatype Plan = Plan(items: seq<Item>, size: nat, digest: Digest, model: nat, config: nat)

  // A section as Diff sees it: a layout's field spelled out.
  datatype Sec = Sec(name: Name, off: nat, len: nat)

  const MAX_ITEMS: nat := 0x10_0000
  const DELTA_MAGIC: Bytes := [75, 86, 68, 69, 76, 84, 65, 50]  // "KVDELTA2"
  const DELTA_HEADER: nat := 72

  // ---- Planning ----

  // How many leading whole blocks from b on the receiver already holds.
  function MatchRun(h: Hashes, f: Bytes, s: Sec, blocks: seq<Bytes>, b: nat): (r: nat)
    requires s.off + s.len <= |f| && b <= |blocks| && b * BLOCK <= s.len
    ensures b <= r <= |blocks| && r * BLOCK <= s.len
    ensures forall i :: b <= i < r ==> h.block(BlockAt(f, s.off, i)) == blocks[i]
    ensures r < |blocks| && (r + 1) * BLOCK <= s.len ==> h.block(BlockAt(f, s.off, r)) != blocks[r]
    decreases |blocks| - b
  {
    if b < |blocks| && (b + 1) * BLOCK <= s.len && h.block(BlockAt(f, s.off, b)) == blocks[b]
    then MatchRun(h, f, s, blocks, b + 1) else b
  }

  // A later section of the same name replaces an earlier one.
  function BlocksByName(sections: seq<SectionManifest>): map<Name, seq<Bytes>> {
    if sections == [] then map[] else
      var last := sections[|sections| - 1];
      BlocksByName(sections[..|sections| - 1])[last.name := last.blocks]
  }

  function BaseBlocks(base: Option<Manifest>, model: nat, config: nat): map<Name, seq<Bytes>> {
    if base.Some? && base.value.model == model && base.value.config == config
    then BlocksByName(base.value.sections) else map[]
  }

  predicate SecsIn(secs: seq<Sec>, size: nat) {
    && (forall i :: 0 <= i < |secs| ==> secs[i].off + secs[i].len <= size)
    && (forall i, j :: 0 <= i < j < |secs| ==> secs[i].off + secs[i].len <= secs[j].off)
  }

  function KeepOf(h: Hashes, f: Bytes, s: Sec, base: map<Name, seq<Bytes>>): (r: nat)
    requires s.off + s.len <= |f|
    ensures r <= s.len && (s.name !in base ==> r == 0)
  {
    if s.name in base then MatchRun(h, f, s, base[s.name], 0) * BLOCK else 0
  }

  function Pos(secs: seq<Sec>, k: nat): nat
    requires k <= |secs|
  {
    if k == 0 then 0 else secs[k - 1].off + secs[k - 1].len
  }

  function Gap(from: nat, to: nat): seq<Item> {
    if to > from then [Item("", from, to - from, 0)] else []
  }

  function ItemsTo(h: Hashes, f: Bytes, secs: seq<Sec>, base: map<Name, seq<Bytes>>, k: nat): seq<Item>
    requires SecsIn(secs, |f|) && k <= |secs|
  {
    if k == 0 then [] else
      var s := secs[k - 1];
      ItemsTo(h, f, secs, base, k - 1) + Gap(Pos(secs, k - 1), s.off) + [Item(s.name, s.off, s.len, KeepOf(h, f, s, base))]
  }

  function PlanOf(h: Hashes, f: Bytes, secs: seq<Sec>, model: nat, config: nat, base: Option<Manifest>): Plan
    requires SecsIn(secs, |f|)
  {
    var blocks := BaseBlocks(base, model, config);
    Plan(ItemsTo(h, f, secs, blocks, |secs|) + Gap(Pos(secs, |secs|), |f|), |f|, h.digest(f), model, config)
  }

  method KeepBlocks(h: Hashes, f: Bytes, s: Sec, bs: seq<Bytes>) returns (keep: nat)
    requires s.off + s.len <= |f|
    ensures keep == MatchRun(h, f, s, bs, 0) * BLOCK
  {
    keep := 0;
    var b := 0;
    while b < |bs| && (b + 1) * BLOCK <= s.len
      invariant b <= |bs| && b * BLOCK <= s.len && keep == b * BLOCK
      invariant MatchRun(h, f, s, bs, 0) == MatchRun(h, f, s, bs, b)
    {
      if h.block(BlockAt(f, s.off, b)) != bs[b] {
        break;
      }
      b := b + 1;
      keep := b * BLOCK;
    }
  }

  method BaseSections(base: Option<Manifest>, model: nat, config: nat) returns (baseSec: map<Name, seq<Bytes>>)
    ensures baseSec == BaseBlocks(base, model, config)
  {
    baseSec := map[];
    if base.Some? && base.value.model == model && base.value.config == config {
      var ms := base.value.sections;
      for i := 0 to |ms|
        invariant baseSec == BlocksByName(ms[..i])
      {
        assert ms[..i + 1][..i] == ms[..i];
        baseSec := baseSec[ms[i].name := ms[i].blocks];
      }
      assert ms[..|ms|] == ms;
    }
  }

  method Keeps(h: Hashes, f: Bytes, secs: seq<Sec>, baseSec: map<Name, seq<Bytes>>) returns (keep: seq<nat>)
    requires SecsIn(secs, |f|)
    ensures |keep| == |secs| && forall j :: 0 <= j < |secs| ==> keep[j] == KeepOf(h, f, secs[j], baseSec)
  {
    hide MatchRun;
    keep := [];
    for i := 0 to |secs|
      invariant |keep| == i && forall j :: 0 <= j < i ==> keep[j] == KeepOf(h, f, secs[j], baseSec)
    {
      var k := 0;
      if secs[i].name in baseSec {
        k := KeepBlocks(h, f, secs[i], baseSec[secs[i].name]);
      }
      keep := keep + [k];
    }
  }

  method Diff(h: Hashes, f: Bytes, secs: seq<Sec>, model: nat, config: nat, base: Option<Manifest>) returns (p: Plan)
    requires SecsIn(secs, |f|)
    ensures p == PlanOf(h, f, secs, model, config, base)
  {
    hide KeepOf, BaseBlocks;
    var baseSec := BaseSections(base, model, config);
    var keep := Keeps(h, f, secs, baseSec);
    var items: seq<Item> := [];
    var pos := 0;
    for i := 0 to |secs|
      invariant pos == Pos(secs, i) && items == ItemsTo(h, f, secs, baseSec, i)
    {
      var s := secs[i];
      if s.off > pos {
        items := items + [Item("", pos, s.off - pos, 0)];
      }
      items := items + [Item(s.name, s.off, s.len, keep[i])];
      pos := s.off + s.len;
    }
    if pos < |f| {
      items := items + [Item("", pos, |f| - pos, 0)];
    }
    p := Plan(items, |f|, h.digest(f), model, config);
  }

  // The items run from 0 to size with nothing between them and nothing twice.
  predicate Tiles(items: seq<Item>, size: nat) {
    && (items == [] ==> size == 0)
    && (items != [] ==> items[0].off == 0 && items[|items| - 1].off + items[|items| - 1].len == size)
    && (forall k :: 0 < k < |items| ==> items[k].off == items[k - 1].off + items[k - 1].len)
  }

  predicate ItemOk(it: Item) {
    && it.keep <= it.len && (it.section == "" ==> it.keep == 0)
    && |it.section| < 0x1_0000 && forall i :: 0 <= i < |it.section| ==> it.section[i] as int < 256
  }

  predicate PlanOk(p: Plan) {
    && Tiles(p.items, p.size) && p.size < TWO63 && |p.items| <= 0x10_0000
    && p.model < TWO64 && p.config < TWO64
    && forall k :: 0 <= k < |p.items| ==> ItemOk(p.items[k])
  }

  predicate Distinct(items: seq<Item>) {
    forall i, j :: 0 <= i < j < |items| && items[i].section != "" ==> items[i].section != items[j].section
  }

  lemma TilesPush(items: seq<Item>, pos: nat, it: Item)
    requires Tiles(items, pos) && it.off == pos
    ensures Tiles(items + [it], pos + it.len)
  {
  }

  lemma TilesGap(items: seq<Item>, pos: nat, to: nat)
    requires Tiles(items, pos) && pos <= to
    ensures Tiles(items + Gap(pos, to), to)
  {
    if to > pos {
      TilesPush(items, pos, Item("", pos, to - pos, 0));
    } else {
      assert items + [] == items;
    }
  }

  predicate NamesOk(secs: seq<Sec>) {
    && (forall i :: 0 <= i < |secs| ==> ValidKey(secs[i].name))
    && (forall i, j :: 0 <= i < j < |secs| ==> secs[i].name != secs[j].name)
  }

  // What holds of a plan's items so far: they tile, none is malformed, and each section item is
  // one of the first k sections, in order.
  predicate Planned(h: Hashes, f: Bytes, secs: seq<Sec>, base: map<Name, seq<Bytes>>, k: nat, items: seq<Item>)
    requires SecsIn(secs, |f|) && k <= |secs|
  {
    && (forall i :: 0 <= i < |items| ==> ItemOk(items[i]))
    && (forall i :: 0 <= i < |items| && items[i].section != "" ==> Among(h, f, secs, base, k, items[i]))
    && Distinct(items)
  }

  predicate Among(h: Hashes, f: Bytes, secs: seq<Sec>, base: map<Name, seq<Bytes>>, k: nat, it: Item)
    requires SecsIn(secs, |f|) && k <= |secs|
  {
    exists j :: 0 <= j < k && it == Item(secs[j].name, secs[j].off, secs[j].len, KeepOf(h, f, secs[j], base))
  }

  lemma PlannedGap(h: Hashes, f: Bytes, secs: seq<Sec>, base: map<Name, seq<Bytes>>, k: nat, items: seq<Item>, from: nat, to: nat)
    requires SecsIn(secs, |f|) && k <= |secs| && Planned(h, f, secs, base, k, items)
    ensures Planned(h, f, secs, base, k, items + Gap(from, to))
  {
    var r := items + Gap(from, to);
    assert forall i :: 0 <= i < |items| ==> r[i] == items[i];
    assert forall i :: |items| <= i < |r| ==> r[i] == Item("", from, to - from, 0);
  }

  lemma PlannedSec(h: Hashes, f: Bytes, secs: seq<Sec>, base: map<Name, seq<Bytes>>, k: nat, items: seq<Item>)
    requires SecsIn(secs, |f|) && NamesOk(secs) && k < |secs| && Planned(h, f, secs, base, k, items)
    ensures Planned(h, f, secs, base, k + 1, items + [Item(secs[k].name, secs[k].off, secs[k].len, KeepOf(h, f, secs[k], base))])
  {
    hide KeepOf;
    var it := Item(secs[k].name, secs[k].off, secs[k].len, KeepOf(h, f, secs[k], base));
    var r := items + [it];
    assert ItemOk(it);
    forall i | 0 <= i < |items| ensures r[i].section != it.section {
      if items[i].section != "" {
        var j :| 0 <= j < k && items[i] == Item(secs[j].name, secs[j].off, secs[j].len, KeepOf(h, f, secs[j], base));
      }
    }
    assert r[|items|] == it;
  }

  lemma {:induction false} ItemsToOk(h: Hashes, f: Bytes, secs: seq<Sec>, base: map<Name, seq<Bytes>>, k: nat)
    requires SecsIn(secs, |f|) && NamesOk(secs) && k <= |secs|
    ensures Tiles(ItemsTo(h, f, secs, base, k), Pos(secs, k))
    ensures Planned(h, f, secs, base, k, ItemsTo(h, f, secs, base, k))
  {
    hide Planned, Tiles, KeepOf;
    if k == 0 {
      PlannedNone(h, f, secs, base);
    } else {
      ItemsToOk(h, f, secs, base, k - 1);
      var items, s := ItemsTo(h, f, secs, base, k - 1), secs[k - 1];
      assert Pos(secs, k - 1) <= s.off;
      TilesGap(items, Pos(secs, k - 1), s.off);
      PlannedGap(h, f, secs, base, k - 1, items, Pos(secs, k - 1), s.off);
      TilesPush(items + Gap(Pos(secs, k - 1), s.off), s.off, Item(s.name, s.off, s.len, KeepOf(h, f, s, base)));
      PlannedSec(h, f, secs, base, k - 1, items + Gap(Pos(secs, k - 1), s.off));
    }
  }

  lemma PlannedNone(h: Hashes, f: Bytes, secs: seq<Sec>, base: map<Name, seq<Bytes>>)
    requires SecsIn(secs, |f|)
    ensures Tiles([], 0) && Planned(h, f, secs, base, 0, [])
  {
  }

  // A plan tiles the new file, and each of its section items is a section of the file with the
  // longest run of leading blocks the base holds.
  lemma PlanTiles(h: Hashes, f: Bytes, secs: seq<Sec>, model: nat, config: nat, base: Option<Manifest>)
    requires SecsIn(secs, |f|) && NamesOk(secs)
    ensures var p := PlanOf(h, f, secs, model, config, base);
      && Tiles(p.items, |f|)
      && Planned(h, f, secs, BaseBlocks(base, model, config), |secs|, p.items)
  {
    hide Planned, Tiles, KeepOf;
    var blocks := BaseBlocks(base, model, config);
    ItemsToOk(h, f, secs, blocks, |secs|);
    var items := ItemsTo(h, f, secs, blocks, |secs|);
    TilesGap(items, Pos(secs, |secs|), |f|);
    PlannedGap(h, f, secs, blocks, |secs|, items, Pos(secs, |secs|), |f|);
  }

  lemma {:induction false} SecAt(h: Hashes, f: Bytes, secs: seq<Sec>, base: map<Name, seq<Bytes>>, k: nat, j: nat) returns (i: nat)
    requires SecsIn(secs, |f|) && j < k <= |secs|
    ensures var items := ItemsTo(h, f, secs, base, k);
      i < |items| && items[i].section == secs[j].name && items[i].off == secs[j].off && items[i].len == secs[j].len
  {
    hide KeepOf;
    if j == k - 1 {
      i := |ItemsTo(h, f, secs, base, k)| - 1;
    } else {
      i := SecAt(h, f, secs, base, k - 1, j);
    }
  }

  // Every section of the file is an item of its own.
  lemma EverySection(h: Hashes, f: Bytes, secs: seq<Sec>, model: nat, config: nat, base: Option<Manifest>, j: nat) returns (i: nat)
    requires SecsIn(secs, |f|) && NamesOk(secs) && j < |secs|
    ensures var items := PlanOf(h, f, secs, model, config, base).items;
      && i < |items| && items[i].section == secs[j].name && items[i].off == secs[j].off && items[i].len == secs[j].len
      && forall x :: 0 <= x < |items| && x != i ==> items[x].section != secs[j].name
  {
    hide ItemsTo, Tiles, KeepOf, ValidKey;
    var blocks := BaseBlocks(base, model, config);
    i := SecAt(h, f, secs, blocks, |secs|, j);
    PlanTiles(h, f, secs, model, config, base);
    assert ValidKey(secs[j].name);
    NamedKey(secs[j].name);
  }

  lemma NamedKey(name: Name)
    requires ValidKey(name)
    ensures name != ""
  {
  }

  // The last section of a name stands for it.
  predicate LastNamed(sections: seq<SectionManifest>, x: nat, name: Name) {
    && x < |sections| && sections[x].name == name
    && forall y :: x < y < |sections| ==> sections[y].name != name
  }

  lemma {:induction false} ByName(sections: seq<SectionManifest>, name: Name)
    ensures name in BlocksByName(sections) <==> exists x: nat :: LastNamed(sections, x, name)
    ensures forall x: nat :: LastNamed(sections, x, name) ==> BlocksByName(sections)[name] == sections[x].blocks
  {
    if sections != [] {
      var n := |sections| - 1;
      var init := sections[..n];
      ByName(init, name);
      if sections[n].name == name {
        assert LastNamed(sections, n, name);
      } else {
        assert forall x: nat :: LastNamed(sections, x, name) <==> LastNamed(init, x, name);
      }
    }
  }

  // A section of a plan keeps k whole blocks: none without a base of the same model and configuration
  // that has a section of its name. With one, each of the first k blocks has the base's hash, and
  // after them the base's hashes end, or the section does, or the next block's hash is another.
  lemma KeepsLongest(h: Hashes, f: Bytes, secs: seq<Sec>, model: nat, config: nat, base: Option<Manifest>, i: nat) returns (k: nat)
    requires SecsIn(secs, |f|) && NamesOk(secs)
    requires var items := PlanOf(h, f, secs, model, config, base).items; i < |items| && items[i].section != ""
    ensures var it := PlanOf(h, f, secs, model, config, base).items[i];
      && it.keep == k * 65536 && it.keep <= it.len && it.off + it.len <= |f|
      && Sec(it.section, it.off, it.len) in secs
      && (base.None? || base.value.model != model || base.value.config != config ==> k == 0)
      && (base.Some? && (forall x :: 0 <= x < |base.value.sections| ==> base.value.sections[x].name != it.section) ==> k == 0)
      && (base.Some? && base.value.model == model && base.value.config == config ==>
            forall x: nat :: LastNamed(base.value.sections, x, it.section) ==>
              var hashes := base.value.sections[x].blocks;
              && k <= |hashes|
              && (forall b :: 0 <= b < k ==> h.block(f[it.off + b * 65536..it.off + (b + 1) * 65536]) == hashes[b])
              && (k < |hashes| && (k + 1) * 65536 <= it.len ==>
                    h.block(f[it.off + k * 65536..it.off + (k + 1) * 65536]) != hashes[k]))
  {
    hide Tiles, ItemsTo, MatchRun, BlocksByName, NamesOk, LastNamed;
    var blocks := BaseBlocks(base, model, config);
    var it := PlanOf(h, f, secs, model, config, base).items[i];
    PlanTiles(h, f, secs, model, config, base);
    assert Among(h, f, secs, blocks, |secs|, it);
    var j :| 0 <= j < |secs| && it == Item(secs[j].name, secs[j].off, secs[j].len, KeepOf(h, f, secs[j], blocks));
    k := if it.section in blocks then MatchRun(h, f, secs[j], blocks[it.section], 0) else 0;
    assert secs[j] == Sec(it.section, it.off, it.len) && secs[j] in secs;
    if base.Some? {
      ByName(base.value.sections, it.section);
      NotNamed(base.value.sections, it.section);
    }
  }

  lemma NotNamed(sections: seq<SectionManifest>, name: Name)
    ensures (forall x :: 0 <= x < |sections| ==> sections[x].name != name) ==> forall x: nat :: !LastNamed(sections, x, name)
  {
  }
}

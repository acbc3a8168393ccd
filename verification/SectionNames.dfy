/**
 How sections are named (internal/kvshare/sessfile.go, transport.go): the names are valid keys,
 different fields have different names, and the sections ParseLayout reports are in file order,
 apart from each other, inside the payload and all different.
 */
module SectionNames {
  import opened Bytes
  import opened Decimal
  import opened SessFile

  type Name = string

  function Tag(kind: Kind, i: nat): string {
    match kind
    case Live => "live"
    case Ckpt => "ckpt" + Dec(i)
    case Kv => "kv" + Dec(i)
  }

  function Part(kind: Kind, j: nat): string
    requires j < PartCount(kind)
  {
    if kind.Kv? then ["k", "v", "k_scale", "v_scale", "pooled"][j]
    else ["ids", "imgs", "gdn", "ple", "tails", "dead", "block_pos"][j]
  }

  // A field the format has: there is one live state, and counts are 64-bit.
  predicate FieldOk(fd: Field) {
    fd.j < PartCount(fd.kind) && fd.i < TWO64 && (fd.kind.Live? ==> fd.i == 0)
  }

  function NameOf(fd: Field): Name
    requires FieldOk(fd)
  {
    Tag(fd.kind, fd.i) + ['.'] + Part(fd.kind, fd.j)
  }

  predicate KeyChar(c: char) {
    'a' <= c <= 'z' || 'A' <= c <= 'Z' || '0' <= c <= '9' || c == '.' || c == '_' || c == '-'
  }

  predicate ValidKey(key: string) {
    key != "" && |key| <= 128 && key[0] != '.' && forall i :: 0 <= i < |key| ==> KeyChar(key[i])
  }

  predicate IsKV(name: Name) {
    |name| >= 2 && name[..2] == "kv"
  }

  lemma NameOfValid(fd: Field)
    requires FieldOk(fd)
    ensures ValidKey(NameOf(fd)) && (IsKV(NameOf(fd)) <==> fd.kind.Kv?)
  {
    DecLength64(fd.i);
    var t, p := Tag(fd.kind, fd.i), Part(fd.kind, fd.j);
    assert |p| <= 9 && forall i :: 0 <= i < |p| ==> KeyChar(p[i]);
    assert 3 <= |t| <= 24 && forall i :: 0 <= i < |t| ==> KeyChar(t[i]);
    assert NameOf(fd)[..2] == t[..2];
    assert fd.kind.Kv? ==> t[..2] == "kv";
    assert !fd.kind.Kv? ==> t[0] != 'k';
  }

  lemma TagInjective(k1: Kind, i1: nat, k2: Kind, i2: nat)
    requires Tag(k1, i1) == Tag(k2, i2)
    ensures k1 == k2 && (k1.Live? || i1 == i2)
  {
    var a, b := Tag(k1, i1), Tag(k2, i2);
    assert a[0] == (match k1 case Live => 'l' case Ckpt => 'c' case Kv => 'k');
    assert b[0] == (match k2 case Live => 'l' case Ckpt => 'c' case Kv => 'k');
    if k1.Ckpt? {
      assert Dec(i1) == a[4..] == b[4..] == Dec(i2);
      DecInjective(i1, i2);
    } else if k1.Kv? {
      assert Dec(i1) == a[2..] == b[2..] == Dec(i2);
      DecInjective(i1, i2);
    }
  }

  lemma PartInjective(kind: Kind, j1: nat, j2: nat)
    requires j1 < PartCount(kind) && j2 < PartCount(kind) && Part(kind, j1) == Part(kind, j2)
    ensures j1 == j2
  {
    var a := Part(kind, j1);
    if kind.Kv? {
      assert j1 == (if |a| == 6 then 4 else if |a| == 7 then (if a[0] == 'k' then 2 else 3) else if a[0] == 'k' then 0 else 1);
      assert j2 == (if |a| == 6 then 4 else if |a| == 7 then (if a[0] == 'k' then 2 else 3) else if a[0] == 'k' then 0 else 1);
    } else {
      assert j1 == (match a[0] case 'i' => if |a| == 3 then 0 else 1 case 'g' => 2 case 'p' => 3 case 't' => 4 case 'd' => 5 case _ => 6);
      assert j2 == (match a[0] case 'i' => if |a| == 3 then 0 else 1 case 'g' => 2 case 'p' => 3 case 't' => 4 case 'd' => 5 case _ => 6);
    }
  }

  lemma NameOfInjective(a: Field, b: Field)
    requires FieldOk(a) && FieldOk(b) && NameOf(a) == NameOf(b)
    ensures a == b
  {
    assert '.' !in Tag(a.kind, a.i) && '.' !in Tag(b.kind, b.i);
    SplitUnique('.', Tag(a.kind, a.i), Part(a.kind, a.j), Tag(b.kind, b.i), Part(b.kind, b.j));
    TagInjective(a.kind, a.i, b.kind, b.i);
    PartInjective(a.kind, a.j, b.j);
  }

  // File order of fields.
  function KindRank(kind: Kind): nat {
    match kind case Live => 0 case Ckpt => 1 case Kv => 2
  }

  predicate Before(a: Field, b: Field) {
    || KindRank(a.kind) < KindRank(b.kind)
    || (a.kind == b.kind && (a.i < b.i || (a.i == b.i && a.j < b.j)))
  }

  // Sections between lo and hi, in order, with at least eight bytes of framing before each.
  predicate Tidy(secs: seq<Section>, lo: nat, hi: nat) {
    && (forall i :: 0 <= i < |secs| ==> lo + 8 <= secs[i].off && secs[i].off + secs[i].len <= hi && FieldOk(secs[i].field))
    && (forall i, j :: 0 <= i < j < |secs| ==>
          secs[i].off + secs[i].len + 8 <= secs[j].off && Before(secs[i].field, secs[j].field))
  }

  predicate AllBefore(secs: seq<Section>, fd: Field) {
    forall i :: 0 <= i < |secs| ==> Before(secs[i].field, fd)
  }

  // The walk so far is tidy and every field it has met comes before fd.
  predicate TidyW(w: Walk, fd: Field) {
    w.Walk? ==> SESS_HEADER <= w.p && Tidy(w.out, SESS_HEADER, w.p) && AllBefore(w.out, fd)
  }

  lemma TidyVec(f: Bytes, end: nat, w: Walk, fd: Field)
    requires In(f, end, w) && TidyW(w, fd) && FieldOk(fd)
    ensures TidyW(VecW(f, end, w, fd), Field(fd.kind, fd.i, fd.j + 1))
  {
    hide Word, Elem;
    var r := VecW(f, end, w, fd);
    if r.Walk? {
      TidyPush(w.out, SESS_HEADER, w.p, fd, r.p - w.p - 8);
    }
  }

  lemma TidyPush(secs: seq<Section>, lo: nat, p: nat, fd: Field, len: nat)
    requires lo <= p && Tidy(secs, lo, p) && AllBefore(secs, fd) && FieldOk(fd)
    ensures Tidy(secs + [Section(fd, p + 8, len)], lo, p + 8 + len)
    ensures AllBefore(secs + [Section(fd, p + 8, len)], Field(fd.kind, fd.i, fd.j + 1))
  {
  }

  lemma {:induction false} TidyVecs(f: Bytes, end: nat, w: Walk, kind: Kind, i: nat, k: nat)
    requires In(f, end, w) && TidyW(w, Field(kind, i, 0))
    requires k <= PartCount(kind) && i < TWO64 && (kind.Live? ==> i == 0)
    ensures TidyW(VecsW(f, end, w, kind, i, k), Field(kind, i, k))
  {
    if k > 0 {
      TidyVecs(f, end, w, kind, i, k - 1);
      TidyVec(f, end, VecsW(f, end, w, kind, i, k - 1), Field(kind, i, k - 1));
    }
  }

  lemma TidyRec(f: Bytes, end: nat, w: Walk, kind: Kind, i: nat)
    requires In(f, end, w) && TidyW(w, Field(kind, i, 0)) && i < TWO64 && (kind.Live? ==> i == 0)
    ensures TidyW(RecW(f, end, w, kind, i), Field(kind, i + 1, 0))
  {
    var w1 := SkipW(f, end, w, PreLen(kind));
    TidyVecs(f, end, w1, kind, i, PartCount(kind));
    hide VecsW;
  }

  lemma {:induction false} TidyRecs(f: Bytes, end: nat, w: Walk, kind: Kind, n: nat)
    requires In(f, end, w) && TidyW(w, Field(kind, 0, 0)) && n <= TWO64 && !kind.Live?
    ensures TidyW(RecsW(f, end, w, kind, n), Field(kind, n, 0))
  {
    hide RecW, TidyW;
    if n > 0 {
      TidyRecs(f, end, w, kind, n - 1);
      TidyRec(f, end, RecsW(f, end, w, kind, n - 1), kind, n - 1);
    }
  }

  lemma TidyGroup(f: Bytes, end: nat, w: Walk, kind: Kind)
    requires In(f, end, w) && TidyW(w, Field(kind, 0, 0)) && !kind.Live?
    ensures TidyW(GroupW(f, end, w, kind), Field(kind, TWO64, 0))
  {
    var (w1, n) := CountW(f, end, w);
    Pow256Values();
    TidyRecs(f, end, w1, kind, n);
    hide RecsW;
  }

  lemma TidyPayload(f: Bytes, end: nat, w: Walk)
    requires In(f, end, w) && TidyW(w, Field(Live, 0, 0))
    ensures TidyW(PayloadW(f, end, w), Field(Kv, TWO64, 0))
  {
    hide RecW, GroupW;
    var w1 := SkipW(f, end, w, GEOMETRY);
    TidyRec(f, end, w1, Live, 0);
    var w2 := RecW(f, end, w1, Live, 0);
    assert TidyW(w2, Field(Ckpt, 0, 0));
    TidyGroup(f, end, w2, Ckpt);
    var w3 := GroupW(f, end, w2, Ckpt);
    assert TidyW(w3, Field(Kv, 0, 0));
    TidyGroup(f, end, w3, Kv);
  }

  // Every layout ParseLayout returns lists sections in file order, apart from each other and
  // inside the payload; no two have the same name, and every name can name a file.
  lemma ParseTidy(f: Bytes)
    requires Parse(f).Some?
    ensures Tidy(Parse(f).value.sections, SESS_HEADER, |f| - SESS_TRAILER)
    ensures var secs := Parse(f).value.sections;
      && (forall i :: 0 <= i < |secs| ==> ValidKey(NameOf(secs[i].field)))
      && (forall i, j :: 0 <= i < j < |secs| ==> NameOf(secs[i].field) != NameOf(secs[j].field))
  {
    hide PayloadW;
    TidyPayload(f, |f| - SESS_TRAILER, Walk(SESS_HEADER, []));
    var secs := Parse(f).value.sections;
    forall i | 0 <= i < |secs| ensures ValidKey(NameOf(secs[i].field)) {
      NameOfValid(secs[i].field);
    }
    forall i, j | 0 <= i < j < |secs| ensures NameOf(secs[i].field) != NameOf(secs[j].field) {
      if NameOf(secs[i].field) == NameOf(secs[j].field) {
        NameOfInjective(secs[i].field, secs[j].field);
      }
    }
  }

  // ---- The names ----

  lemma NamesAre(i: nat)
    requires i < TWO64
    ensures NameOf(Field(Live, 0, 0)) == "live.ids" && NameOf(Field(Live, 0, 6)) == "live.block_pos"
    ensures var c := "ckpt" + Dec(i) + ".";
      && NameOf(Field(Ckpt, i, 0)) == c + "ids" && NameOf(Field(Ckpt, i, 1)) == c + "imgs" && NameOf(Field(Ckpt, i, 2)) == c + "gdn"
      && NameOf(Field(Ckpt, i, 3)) == c + "ple" && NameOf(Field(Ckpt, i, 4)) == c + "tails" && NameOf(Field(Ckpt, i, 5)) == c + "dead"
      && NameOf(Field(Ckpt, i, 6)) == c + "block_pos"
    ensures var k := "kv" + Dec(i) + ".";
      && NameOf(Field(Kv, i, 0)) == k + "k" && NameOf(Field(Kv, i, 1)) == k + "v" && NameOf(Field(Kv, i, 2)) == k + "k_scale"
      && NameOf(Field(Kv, i, 3)) == k + "v_scale" && NameOf(Field(Kv, i, 4)) == k + "pooled"
  {
    hide Dec;
    assert "live" + ['.'] + "ids" == "live.ids" && "live" + ['.'] + "block_pos" == "live.block_pos";
  }
}

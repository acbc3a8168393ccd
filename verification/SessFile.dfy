/**
 The STRSESS session file (internal/kvshare/sessfile.go): the walk that names its sections,
 written as the code does it (Walker, ParseLayout) and as a function. The grammar the walk is
 measured against is in SessGrammar, the names of the sections in SectionNames.
 */
module SessFile {
  import opened Bytes
  import opened Options

  const SESS_MAGIC: Bytes := [83, 84, 82, 83, 69, 83, 83, 1]  // "STRSESS\x01"
  const SESS_VERSION: nat := 1
  const SESS_HEADER: nat := 64
  const SESS_TRAILER: nat := 16
  const GEOMETRY: nat := 18 * 8 + 3 * 8

  // Which vector of a session a section is: part j of the live state, of checkpoint i or of
  // K/V layer i. SectionNames.NameOf spells it.
  datatype Kind = Live | Ckpt | Kv
  datatype Field = Field(kind: Kind, i: nat, j: nat)
  datatype Section = Section(field: Field, off: nat, len: nat)
  datatype Layout = Layout(size: nat, model: nat, config: nat, payload: nat, sections: seq<Section>)

  // A checkpoint is seven vectors and an eight-byte count; a K/V layer is a 56-byte head and
  // five vectors.
  function PartCount(kind: Kind): nat {
    if kind.Kv? then 5 else 7
  }

  function Elem(kind: Kind, j: nat): (r: nat)
    ensures r > 0
  {
    if kind.Kv? then 1 else if j == 0 then 4 else if j == 1 then 16 else 1
  }

  function PreLen(kind: Kind): nat {
    if kind.Kv? then 56 else 0
  }

  function PostLen(kind: Kind): nat {
    if kind.Kv? then 0 else 8
  }

  // The walk as a function: a position and the sections behind it, or the latched error.
  datatype Walk = Walk(p: nat, out: seq<Section>) | Bad

  predicate In(f: Bytes, end: nat, w: Walk) {
    end <= |f| && (w.Walk? ==> w.p <= end)
  }

  function SkipW(f: Bytes, end: nat, w: Walk, n: nat): (r: Walk)
    requires In(f, end, w)
    ensures In(f, end, r)
  {
    if w.Bad? || n > end - w.p then Bad else Walk(w.p + n, w.out)
  }

  function CountW(f: Bytes, end: nat, w: Walk): (r: (Walk, nat))
    requires In(f, end, w)
    ensures In(f, end, r.0)
  {
    if w.Bad? || 8 > end - w.p then (Bad, 0) else (Walk(w.p + 8, w.out), Word(f[w.p..w.p + 8]))
  }

  lemma Fits(n: nat, room: nat, elem: nat)
    requires elem > 0
    ensures n <= room / elem <==> n * elem <= room
  {
    var q := room / elem;
    assert q * elem <= room < (q + 1) * elem;
    if n <= q {
      assert n * elem <= q * elem;
    } else {
      assert (q + 1) * elem <= n * elem;
    }
  }

  function VecW(f: Bytes, end: nat, w: Walk, fd: Field): (r: Walk)
    requires In(f, end, w)
    ensures In(f, end, r)
  {
    var elem := Elem(fd.kind, fd.j);
    var (w1, n) := CountW(f, end, w);
    if w1.Bad? || n > (end - w1.p) / elem then Bad
    else
      Fits(n, end - w1.p, elem);
      Walk(w1.p + n * elem, w1.out + [Section(fd, w1.p, n * elem)])
  }

  function VecsW(f: Bytes, end: nat, w: Walk, kind: Kind, i: nat, k: nat): (r: Walk)
    requires In(f, end, w)
    ensures In(f, end, r)
  {
    if k == 0 then w else VecW(f, end, VecsW(f, end, w, kind, i, k - 1), Field(kind, i, k - 1))
  }

  function RecW(f: Bytes, end: nat, w: Walk, kind: Kind, i: nat): (r: Walk)
    requires In(f, end, w)
    ensures In(f, end, r)
  {
    var w1 := SkipW(f, end, w, PreLen(kind));
    var w2 := VecsW(f, end, w1, kind, i, PartCount(kind));
    SkipW(f, end, w2, PostLen(kind))
  }

  function RecsW(f: Bytes, end: nat, w: Walk, kind: Kind, n: nat): (r: Walk)
    requires In(f, end, w)
    ensures In(f, end, r)
  {
    if n == 0 then w else RecW(f, end, RecsW(f, end, w, kind, n - 1), kind, n - 1)
  }

  // A count and that many records.
  function GroupW(f: Bytes, end: nat, w: Walk, kind: Kind): (r: Walk)
    requires In(f, end, w)
    ensures In(f, end, r)
  {
    var (w1, n) := CountW(f, end, w);
    RecsW(f, end, w1, kind, n)
  }

  function PayloadW(f: Bytes, end: nat, w: Walk): (r: Walk)
    requires In(f, end, w)
    ensures In(f, end, r)
  {
    var w1 := SkipW(f, end, w, GEOMETRY);
    var w2 := RecW(f, end, w1, Live, 0);
    var w3 := GroupW(f, end, w2, Ckpt);
    GroupW(f, end, w3, Kv)
  }

  predicate HeaderOk(f: Bytes) {
    && |f| >= SESS_HEADER + SESS_TRAILER
    && f[..8] == SESS_MAGIC
    && Word(f[8..12]) == SESS_VERSION
    && Word(f[12..16]) == SESS_HEADER
    && Int64(Word(f[32..40])) >= 0
    && SESS_HEADER + Int64(Word(f[32..40])) + SESS_TRAILER == |f|
  }

  function WalkOf(f: Bytes): (r: Walk)
    requires HeaderOk(f)
    ensures In(f, |f| - SESS_TRAILER, r)
  {
    PayloadW(f, |f| - SESS_TRAILER, Walk(SESS_HEADER, []))
  }

  function LayoutOf(f: Bytes, secs: seq<Section>): Layout
    requires |f| >= SESS_HEADER + SESS_TRAILER
  {
    Layout(|f|, Word(f[16..24]), Word(f[24..32]), |f| - SESS_HEADER - SESS_TRAILER, secs)
  }

  function Parse(f: Bytes): Option<Layout> {
    if !HeaderOk(f) then None else
      var w := WalkOf(f);
      if w.Bad? || w.p != |f| - SESS_TRAILER then None else Some(LayoutOf(f, w.out))
  }

  lemma {:induction false} VecsLatched(f: Bytes, end: nat, kind: Kind, i: nat, k: nat)
    requires end <= |f|
    ensures VecsW(f, end, Bad, kind, i, k).Bad?
  {
    if k > 0 {
      VecsLatched(f, end, kind, i, k - 1);
    }
  }

  lemma RecLatched(f: Bytes, end: nat, kind: Kind, i: nat)
    requires end <= |f|
    ensures RecW(f, end, Bad, kind, i).Bad?
  {
    VecsLatched(f, end, kind, i, PartCount(kind));
  }

  lemma {:induction false} RecsLatched(f: Bytes, end: nat, w: Walk, kind: Kind, i: nat, n: nat)
    requires In(f, end, w) && i <= n && RecsW(f, end, w, kind, i).Bad?
    ensures RecsW(f, end, w, kind, n).Bad?
  {
    if i < n {
      RecsLatched(f, end, w, kind, i, n - 1);
      RecLatched(f, end, kind, n - 1);
    }
  }

  class Walker {
    const f: Bytes
    const end: nat
    var p: nat
    var out: seq<Section>
    var err: bool

    ghost predicate Valid()
      reads this
    {
      p <= end <= |f|
    }

    ghost function View(): (r: Walk)
      reads this
      requires Valid()
      ensures In(f, end, r)
    {
      if err then Bad else Walk(p, out)
    }

    constructor (file: Bytes, limit: nat)
      requires SESS_HEADER <= limit <= |file|
      ensures Valid() && f == file && end == limit && View() == Walk(SESS_HEADER, [])
    {
      f, end, p, out, err := file, limit, SESS_HEADER, [], false;
    }

    method Skip(n: nat)
      requires Valid()
      modifies this
      ensures Valid() && View() == SkipW(f, end, old(View()), n)
    {
      if err {
        return;
      }
      if n > end - p {
        err := true;
        return;
      }
      p := p + n;
    }

    method Count() returns (v: nat)
      requires Valid()
      modifies this
      ensures Valid() && (View(), v) == CountW(f, end, old(View()))
    {
      if err {
        return 0;
      }
      if 8 > end - p {
        err := true;
        return 0;
      }
      v := Word(f[p..p + 8]);
      p := p + 8;
    }

    // A count followed by that many elements, recorded as a section.
    method Vec(fd: Field)
      requires Valid()
      modifies this
      ensures Valid() && View() == VecW(f, end, old(View()), fd)
    {
      var n := Count();
      if err {
        return;
      }
      var elem := Elem(fd.kind, fd.j);
      if n > (end - p) / elem {
        err := true;
        return;
      }
      Fits(n, end - p, elem);
      var size := n * elem;
      out := out + [Section(fd, p, size)];
      p := p + size;
    }

    // One checkpoint or K/V layer.
    method Record(kind: Kind, i: nat)
      requires Valid()
      modifies this
      ensures Valid() && View() == RecW(f, end, old(View()), kind, i)
    {
      Skip(PreLen(kind));
      ghost var w := View();
      for j := 0 to PartCount(kind)
        invariant Valid() && View() == VecsW(f, end, w, kind, i, j)
      {
        Vec(Field(kind, i, j));
      }
      Skip(PostLen(kind));
    }

    method Records(kind: Kind, n: nat)
      requires Valid()
      modifies this
      ensures Valid() && View() == RecsW(f, end, old(View()), kind, n)
    {
      var i := 0;
      ghost var w := View();
      while i < n && !err
        invariant i <= n && Valid() && View() == RecsW(f, end, w, kind, i)
      {
        Record(kind, i);
        i := i + 1;
      }
      if err {
        RecsLatched(f, end, w, kind, i, n);
      }
    }

    method Group(kind: Kind)
      requires Valid()
      modifies this
      ensures Valid() && View() == GroupW(f, end, old(View()), kind)
    {
      var n := Count();
      Records(kind, n);
    }

    method Payload()
      requires Valid()
      modifies this
      ensures Valid() && View() == PayloadW(f, end, old(View()))
    {
      Skip(GEOMETRY);
      Record(Live, 0);
      Group(Ckpt);
      Group(Kv);
    }
  }

  method ParseLayout(f: Bytes) returns (l: Option<Layout>)
    ensures l == Parse(f)
  {
    if !HeaderOk(f) {
      return None;
    }
    var w := new Walker(f, |f| - SESS_TRAILER);
    w.Payload();
    if w.err || w.p != w.end {
      return None;
    }
    l := Some(LayoutOf(f, w.out));
  }

  // What an accepted file says of itself, by where it says it.
  lemma ParseFields(f: Bytes)
    requires Parse(f).Some?
    ensures var l := Parse(f).value;
      && |f| >= 80 && f[..8] == Ascii("STRSESS") + [1] && Word(f[8..12]) == 1 && Word(f[12..16]) == 64
      && l.size == |f| && l.model == Word(f[16..24]) && l.config == Word(f[24..32])
      && l.payload == Word(f[32..40]) == |f| - 80
  {
    hide WalkOf, Word;
    assert Ascii("STRSESS") + [1] == SESS_MAGIC;
  }
}

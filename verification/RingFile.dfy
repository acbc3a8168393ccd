/** A ring as a file holds it: slots written in place, and the two reads a window takes at the wrap. */
module RingFile {
  import opened Rings

  // A whole slot replaced at once.
  function PutSlotAt<R>(s: Slots<R>, bucket: int, cells: Slot<R>): (r: Slots<R>)
    requires |s| > 0
    ensures |r| == |s|
  {
    s[Mod(bucket, |s|) := cells]
  }

  lemma FlattenPush<R>(s: Slots<R>, x: Slot<R>)
    ensures Flatten(s + [x]) == Flatten(s) + x
  {
    assert (s + [x])[..|s|] == s;
  }

  lemma FlattenNone<R>(s: Slots<R>)
    requires s == []
    ensures Flatten(s) == []
  {
  }

  lemma {:induction false} FlattenConcat<R>(a: Slots<R>, b: Slots<R>)
    ensures Flatten(a + b) == Flatten(a) + Flatten(b)
  {
    hide Flatten;
    if b == [] {
      assert a + b == a;
      FlattenNone(b);
    } else {
      var init, last := b[..|b| - 1], b[|b| - 1];
      FlattenConcat(a, init);
      assert a + b == (a + init) + [last] && b == init + [last];
      FlattenPush(a + init, last);
      FlattenPush(init, last);
      Assoc(Flatten(a), Flatten(init), last);
    }
  }

  lemma SpanWhole<R>(s: Slots<R>, lo: int, hi: int)
    ensures hi < lo ==> Flatten(SpanSlots(s, lo, hi)) == []
    ensures lo <= hi && hi - lo + 1 >= |s| ==> SpanSlots(s, lo, hi) == s
  {
  }

  // The two reads of a span that wraps.
  lemma SpanReads<R>(s: Slots<R>, lo: int, hi: int)
    requires |s| > 0 && lo <= hi && hi - lo + 1 < |s|
    ensures var count, start := hi - lo + 1, Mod(lo, |s|);
      var first := if count < |s| - start then count else |s| - start;
      Flatten(SpanSlots(s, lo, hi)) == Flatten(s[start..start + first]) + Flatten(s[..count - first])
  {
    hide Flatten, Mod;
    var count, start := hi - lo + 1, Mod(lo, |s|);
    var first := if count < |s| - start then count else |s| - start;
    FlattenConcat(s[start..start + first], s[..count - first]);
  }

  class Ring<R> {
    const file: array<Slot<R>>
    const lanes: nat
    const period: int

    ghost predicate Valid()
      reads file
    {
      file.Length > 0 && Uniform(file[..], lanes)
    }

    constructor (slots: nat, lanes: nat, period: int, zero: Cell<R>)
      requires slots >= 1
      ensures Valid() && fresh(file) && file.Length == slots && this.lanes == lanes && this.period == period
      ensures forall j :: 0 <= j < slots ==> file[j] == seq(lanes, _ => zero)
    {
      this.lanes, this.period := lanes, period;
      file := new Slot<R>[slots](_ => seq(lanes, _ => zero));
    }

    method Put(bucket: int, lane: int, cell: Cell<R>) returns (ok: bool)
      requires Valid()
      modifies file
      ensures Valid() && (ok ==> 0 <= lane < lanes)
      ensures file[..] == if ok then PutCell(old(file[..]), Placing(bucket, lane, cell)) else old(file[..])
    {
      if lane < 0 || lane >= lanes {
        return false;
      }
      ok := *;
      if ok {
        var k := Mod(bucket, file.Length);
        file[k] := file[k][lane := cell];
      }
    }

    method PutSlot(bucket: int, cells: Slot<R>) returns (ok: bool)
      requires Valid()
      modifies file
      ensures Valid() && (ok ==> |cells| == lanes)
      ensures file[..] == if ok then PutSlotAt(old(file[..]), bucket, cells) else old(file[..])
    {
      if |cells| != lanes {
        return false;
      }
      ok := *;
      if ok {
        file[Mod(bucket, file.Length)] := cells;
      }
    }

    method ReadAt(from: nat, count: nat) returns (buf: Slot<R>)
      requires from + count <= file.Length
      ensures buf == Flatten(file[from..from + count])
    {
      buf := [];
      for i := 0 to count
        invariant buf == Flatten(file[from..from + i])
      {
        assert file[from..from + i + 1] == file[from..from + i] + [file[from + i]];
        FlattenPush(file[from..from + i], file[from + i]);
        buf := buf + file[from + i];
      }
    }

    method All() returns (buf: Slot<R>)
      ensures buf == Flatten(file[..])
    {
      buf := ReadAt(0, file.Length);
      assert file[0..file.Length] == file[..];
    }

    method Span(lo: int, hi: int) returns (buf: Slot<R>)
      requires Valid()
      ensures buf == Flatten(SpanSlots(file[..], lo, hi))
    {
      hide Mod, Flatten, SpanSlots;
      SpanWhole(file[..], lo, hi);
      if hi < lo {
        return [];
      }
      if hi - lo + 1 >= file.Length {
        buf := All();
        return;
      }
      var count := hi - lo + 1;
      var start := Mod(lo, file.Length);
      var first := if count < file.Length - start then count else file.Length - start;
      SpanReads(file[..], lo, hi);
      assert file[..][start..start + first] == file[start..start + first];
      assert file[..][..count - first] == file[0..count - first];
      buf := ReadAt(start, first);
      if first < count {
        var rest := ReadAt(0, count - first);
        buf := buf + rest;
      } else {
        FlattenNone(file[..][..count - first]);
      }
    }

    method Window(lo: int, hi: int) returns (buf: Slot<R>)
      requires Valid()
      ensures buf == Flatten(WindowSlots(file[..], period, lo, hi))
    {
      if hi <= lo {
        return [];
      }
      if period <= 0 {
        buf := All();
        return;
      }
      buf := Span(TruncDiv(lo, period), TruncDiv(hi - 1, period));
    }

    // The records of a time span, oldest first.
    // The records of a time span, oldest first; none if the file cannot be read.
    method Read(lo: int, hi: int) returns (recs: Slot<R>, ghost read: bool)
      requires Valid()
      ensures recs == if read then ReadWindow(file[..], period, lo, hi) else []
    {
      hide Flatten, Oldest, WindowSlots;
      var fails: bool := *;
      read := !fails;
      if fails {
        return [], read;
      }
      var buf := Window(lo, hi);
      var kept: Slot<R> := [];
      for i := 0 to |buf|
        invariant kept == Keep(buf[..i], lo, hi)
      {
        assert buf[..i + 1][..i] == buf[..i];
        if lo <= buf[i].ts < hi { kept := kept + [buf[i]]; }
      }
      assert buf[..|buf|] == buf;
      recs := Oldest(kept);
    }
  }
}

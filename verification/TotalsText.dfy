/** The totals file: a line for the span counted, and a line for each client. */
module TotalsText {
  import opened Options
  import opened Decimal
  import opened ClientTotals
  import N = NameTable

  // What splits fields: the spaces of Unicode.
  predicate IsSpace(c: char) {
    var u := c as int;
    || 0x09 <= u <= 0x0D || u == 0x20 || u == 0x85 || u == 0xA0 || u == 0x1680 || 0x2000 <= u <= 0x200A
    || u == 0x2028 || u == 0x2029 || u == 0x202F || u == 0x205F || u == 0x3000
  }

  predicate SpaceFree(s: string) {
    forall i :: 0 <= i < |s| ==> !IsSpace(s[i])
  }

  // What the format allows as a client's name.
  predicate ValidClientName(s: string) {
    s != "" && s != "-" && |s| <= 64 && forall i :: 0 <= i < |s| ==> s[i] !in {' ', '\t', '\r', '\n'}
  }

  // What a node allows, which is stricter.
  predicate ValidNodeName(s: string) {
    && 1 <= |s| <= 32
    && forall i :: 0 <= i < |s| ==>
      'a' <= s[i] <= 'z' || '0' <= s[i] <= '9' || (i > 0 && (s[i] == '.' || s[i] == '_' || s[i] == '-'))
  }

  lemma NodeNamesPlain(s: string)
    requires ValidNodeName(s)
    ensures ValidClientName(s) && SpaceFree(s)
  {
    assert s[0] != '-';
  }

  // ---- Numbers ----

  function IntText(n: int): string {
    if n < 0 then "-" + Dec(-n) else Dec(n)
  }

  function Pad3(n: nat): (s: string)
    requires n < 1000
    ensures |s| == 3 && AllDigits(s)
  {
    [Digit(n / 100), Digit(n / 10 % 10), Digit(n % 10)]
  }

  // A counter to three decimals.
  function WhText(wh: real): string {
    var n := (wh * 1000.0).Floor;
    if n < 0 then "-" else Dec(n / 1000) + "." + Pad3(n % 1000)
  }

  // The length of the leading part of s without c.
  function Upto(s: string, c: char): (n: nat)
    ensures n <= |s| && c !in s[..n] && (n < |s| ==> s[n] == c)
  {
    if s == [] || s[0] == c then 0
    else
      var n := 1 + Upto(s[1..], c);
      assert s[..n] == [s[0]] + s[1..][..n - 1];
      n
  }

  lemma {:induction false} UptoIs(a: string, c: char, b: string)
    requires c !in a
    ensures Upto(a + [c] + b, c) == |a| && Upto(a, c) == |a|
  {
    if a != [] {
      UptoIs(a[1..], c, b);
      assert (a + [c] + b)[1..] == a[1..] + [c] + b;
    }
  }

  function ParseUint(s: string): Option<nat> {
    if s == [] || !AllDigits(s) || DecVal(s) >= 0x1_0000_0000_0000_0000 then None else Some(DecVal(s))
  }

  function ParseInt(s: string): Option<int> {
    if s != [] && s[0] == '-' then
      (if s[1..] == [] || !AllDigits(s[1..]) then None else var v: int := DecVal(s[1..]); Some(-v))
    else if s == [] || !AllDigits(s) then None
    else Some(DecVal(s))
  }

  // A decimal number, with or without decimals.
  function ParseDecimal(s: string): Option<real> {
    var n := Upto(s, '.');
    if n == 0 || !AllDigits(s[..n]) then None
    else if n == |s| then Some(DecVal(s) as real)
    else if !AllDigits(s[n + 1..]) then None
    else Some(DecVal(s[..n]) as real + DecVal(s[n + 1..]) as real / Pow10(|s| - n - 1) as real)
  }

  lemma IntReads(n: int)
    ensures ParseInt(IntText(n)) == Some(n) && SpaceFree(IntText(n)) && IntText(n) != []
  {
    DecValOfDec(if n < 0 then -n else n);
    if n < 0 {
      assert IntText(n)[1..] == Dec(-n);
    } else {
      assert IsDigit(Dec(n)[0]);
    }
  }

  lemma Pad3Reads(n: nat)
    requires n < 1000
    ensures DecVal(Pad3(n)) == n
  {
    var s := Pad3(n);
    assert s[..2][..1] == s[..1] && s[..1][..0] == [];
    assert DecVal(s[..1]) == n / 100;
    assert DecVal(s[..2]) == 10 * (n / 100) + n / 10 % 10;
  }

  lemma WhReads(wh: real)
    requires wh >= 0.0 && IsMilli(wh)
    ensures ParseDecimal(WhText(wh)) == Some(wh) && SpaceFree(WhText(wh)) && WhText(wh) != []
  {
    hide DecVal, Dec;
    var n := (wh * 1000.0).Floor;
    assert n >= 0 && wh == n as real / 1000.0;
    var a, b, s := Dec(n / 1000), Pad3(n % 1000), WhText(wh);
    assert '.' !in a by { forall i | 0 <= i < |a| ensures a[i] != '.' { assert IsDigit(a[i]); } }
    assert s == a + ['.'] + b;
    UptoIs(a, '.', b);
    assert s[..|a|] == a && s[|a| + 1..] == b;
    DecValOfDec(n / 1000);
    Pad3Reads(n % 1000);
    Pow10Three();
    Thousandths(n);
    forall i | 0 <= i < |s| ensures !IsSpace(s[i]) {
      if i < |a| { assert IsDigit(a[i]); } else if i > |a| { assert IsDigit(b[i - |a| - 1]); }
    }
  }

  lemma Pow10Three()
    ensures Pow10(3) == 1000
  {
    assert Pow10(2) == 100;
  }

  lemma Thousandths(n: nat)
    ensures (n / 1000) as real + (n % 1000) as real / 1000.0 == n as real / 1000.0
  {
    assert n == 1000 * (n / 1000) + n % 1000;
  }

  // ---- Fields and lines ----

  function LeadSpaces(s: string): (n: nat)
    ensures n <= |s| && (n < |s| ==> !IsSpace(s[n]))
  {
    if s == [] || !IsSpace(s[0]) then 0 else 1 + LeadSpaces(s[1..])
  }

  function LeadWord(s: string): (n: nat)
    ensures n <= |s| && SpaceFree(s[..n]) && (n < |s| ==> IsSpace(s[n])) && (s != [] && !IsSpace(s[0]) ==> n > 0)
  {
    if s == [] || IsSpace(s[0]) then 0
    else
      var n := 1 + LeadWord(s[1..]);
      assert s[..n] == [s[0]] + s[1..][..n - 1];
      n
  }

  function Fields(s: string): (fs: seq<string>)
    ensures forall f :: f in fs ==> SpaceFree(f)
    decreases |s|
  {
    var t := s[LeadSpaces(s)..];
    if t == [] then []
    else [t[..LeadWord(t)]] + Fields(t[LeadWord(t)..])
  }

  lemma {:induction false} WordIs(w: string, rest: string)
    requires SpaceFree(w)
    ensures LeadWord(w + [' '] + rest) == |w| && LeadWord(w) == |w|
  {
    if w != [] {
      WordIs(w[1..], rest);
      assert (w + [' '] + rest)[1..] == w[1..] + [' '] + rest;
    }
  }

  lemma FieldsWord(w: string)
    requires SpaceFree(w) && w != []
    ensures Fields(w) == [w]
  {
    WordIs(w, "");
    assert w[0..] == w && w[..|w|] == w && w[|w|..] == [];
    assert Fields([]) == [];
  }

  lemma FieldsStep(w: string, rest: string)
    requires SpaceFree(w) && w != []
    ensures Fields(w + [' '] + rest) == [w] + Fields(rest)
  {
    var s := w + [' '] + rest;
    WordIs(w, rest);
    assert s[0..] == s && s[..|w|] == w && s[|w|..] == [' '] + rest;
    FieldsSpace(rest);
  }

  lemma FieldsSpace(rest: string)
    ensures Fields([' '] + rest) == Fields(rest)
  {
    var s := [' '] + rest;
    assert s[1..] == rest;
    assert LeadSpaces(s) == 1 + LeadSpaces(rest);
    assert s[LeadSpaces(s)..] == rest[LeadSpaces(rest)..];
  }

  function TrimNewlines(s: string): string {
    if s != [] && s[|s| - 1] == '\n' then TrimNewlines(s[..|s| - 1]) else s
  }

  function Lines(s: string): (ls: seq<string>)
    ensures ls != []
    decreases |s|
  {
    var n := Upto(s, '\n');
    if n == |s| then [s] else [s[..n]] + Lines(s[n + 1..])
  }

  function Joined(ls: seq<string>): string
    requires ls != []
  {
    if |ls| == 1 then ls[0] else ls[0] + ['\n'] + Joined(ls[1..])
  }

  predicate IsLine(l: string) {
    l != [] && '\n' !in l
  }

  lemma LinesStep(l: string, rest: string)
    requires '\n' !in l
    ensures Lines(l + ['\n'] + rest) == [l] + Lines(rest) && Lines(l) == [l]
  {
    hide Upto;
    var s := l + ['\n'] + rest;
    UptoIs(l, '\n', rest);
    assert s[..|l|] == l && s[|l| + 1..] == rest;
  }

  lemma {:induction false} LinesJoined(ls: seq<string>)
    requires ls != [] && forall i :: 0 <= i < |ls| ==> IsLine(ls[i])
    ensures Lines(Joined(ls)) == ls && Joined(ls) != [] && Joined(ls)[|Joined(ls)| - 1] != '\n'
  {
    hide Lines;
    var s := Joined(ls);
    assert IsLine(ls[0]);
    if |ls| == 1 {
      LinesStep(s, "");
      assert s[|s| - 1] in s;
    } else {
      LinesJoined(ls[1..]);
      LinesStep(ls[0], Joined(ls[1..]));
      assert ls == [ls[0]] + ls[1..];
    }
  }

  // ---- The file ----

  function NameOf(names: seq<string>, idx: nat): string {
    if idx == 0 then "-" else if idx < |names| then names[idx] else ""
  }

  function FirstLine(t: Totals): string {
    "since " + IntText(t.since) + " through " + IntText(t.through)
  }

  function RowLine(name: string, r: Row): string {
    name + [' '] + WhText(r.wh) + [' '] + Dec(r.busy) + [' '] + Dec(r.tokens)
  }

  // The file's lines, with the clients in the order they are listed.
  function RowLines(t: Totals, names: seq<string>, order: seq<nat>): seq<string>
    requires forall k :: k in order ==> k in t.rows
  {
    if order == [] then []
    else
      var k := order[|order| - 1];
      RowLines(t, names, order[..|order| - 1]) + [RowLine(NameOf(names, k), t.rows[k])]
  }

  function Render(t: Totals, names: seq<string>, order: seq<nat>): string
    requires forall k :: k in order ==> k in t.rows
  {
    Joined([FirstLine(t)] + RowLines(t, names, order)) + ['\n']
  }

  function ParseFirst(l: string): Option<(int, int)> {
    if !("since " <= l) then None
    else
      var rest := l[6..];
      var n := Upto(rest, ' ');
      if !(" through " <= rest[n..]) then None
      else
        var a, b := ParseInt(rest[..n]), ParseInt(rest[n + 9..]);
        if a.Some? && b.Some? then Some((a.value, b.value)) else None
  }

  function ParseRow(l: string, names: seq<string>): Option<(nat, Row)> {
    var f := Fields(l);
    if |f| != 4 then None
    else
      var idx := if f[0] == "-" then Some(0) else N.Find(names, f[0]);
      var wh, busy, tokens := ParseDecimal(f[1]), ParseUint(f[2]), ParseUint(f[3]);
      if idx.None? || wh.None? || busy.None? || tokens.None? || wh.value < 0.0 then None
      else Some((idx.value, Row(wh.value, busy.value, tokens.value)))
  }

  function ParseRows(ls: seq<string>, names: seq<string>): Option<Rows> {
    if ls == [] then Some(map[])
    else
      var rows := ParseRows(ls[..|ls| - 1], names);
      var r := ParseRow(ls[|ls| - 1], names);
      if rows.None? || r.None? then None else Some(rows.value[r.value.0 := r.value.1])
  }

  function Parse(raw: string, names: seq<string>): Option<Totals> {
    var ls := Lines(TrimNewlines(raw));
    var first, rows := ParseFirst(ls[0]), ParseRows(ls[1..], names);
    if first.None? || rows.None? then None else Some(Totals(first.value.0, first.value.1, rows.value))
  }

  // ---- Reading back what was written ----

  predicate RowOk(r: Row) {
    r.wh >= 0.0 && IsMilli(r.wh) && r.busy < 0x1_0000_0000_0000_0000 && r.tokens < 0x1_0000_0000_0000_0000
  }

  // Every client counted has a name of its own that the format allows.
  predicate Named(t: Totals, names: seq<string>) {
    forall k :: k in t.rows ==> RowOk(t.rows[k]) && (k != 0 ==>
      k < |names| && ValidClientName(names[k]) && N.Find(names, names[k]) == Some(k))
  }

  predicate Lists(order: seq<nat>, rows: Rows) {
    && (forall k :: k in order ==> k in rows) && (forall k :: k in rows ==> k in order)
    && forall i, j :: 0 <= i < j < |order| ==> order[i] != order[j]
  }

  lemma UintReads(n: nat)
    requires n < 0x1_0000_0000_0000_0000
    ensures ParseUint(Dec(n)) == Some(n) && SpaceFree(Dec(n))
  {
    DecValOfDec(n);
    forall i | 0 <= i < |Dec(n)| ensures !IsSpace(Dec(n)[i]) { assert IsDigit(Dec(n)[i]); }
  }

  lemma FirstParts(a: string, b: string)
    ensures var l := "since " + a + " through " + b;
      var rest := l[6..];
      && "since " <= l && rest == a + [' '] + ("through " + b)
      && rest[..|a|] == a && " through " <= rest[|a|..] && rest[|a| + 9..] == b
  {
  }

  lemma FirstReads(t: Totals)
    ensures ParseFirst(FirstLine(t)) == Some((t.since, t.through)) && IsLine(FirstLine(t))
  {
    hide ParseInt, IntText, Upto, SpaceFree;
    var a, b := IntText(t.since), IntText(t.through);
    IntReads(t.since);
    IntReads(t.through);
    FirstParts(a, b);
    NoSpaceIn(a);
    NoSpaceIn(b);
    UptoIs(a, ' ', "through " + b);
  }

  lemma NoSpaceIn(s: string)
    requires SpaceFree(s)
    ensures ' ' !in s && '\n' !in s
  {
    forall i | 0 <= i < |s| ensures s[i] != ' ' && s[i] != '\n' { assert !IsSpace(s[i]); }
  }

  lemma RowFields(name: string, r: Row)
    requires SpaceFree(name) && name != [] && RowOk(r)
    ensures Fields(RowLine(name, r)) == [name, WhText(r.wh), Dec(r.busy), Dec(r.tokens)]
  {
    hide Fields, WhText, Dec, ParseDecimal, ParseUint;
    var w, b, k := WhText(r.wh), Dec(r.busy), Dec(r.tokens);
    WhReads(r.wh);
    UintReads(r.busy);
    UintReads(r.tokens);
    assert RowLine(name, r) == name + [' '] + (w + [' '] + (b + [' '] + k));
    FieldsStep(name, w + [' '] + (b + [' '] + k));
    FieldsStep(w, b + [' '] + k);
    FieldsStep(b, k);
    FieldsWord(k);
  }

  lemma RowReads(names: seq<string>, idx: nat, r: Row)
    requires RowOk(r) && SpaceFree(NameOf(names, idx)) && NameOf(names, idx) != []
    requires idx != 0 ==> NameOf(names, idx) != "-" && N.Find(names, NameOf(names, idx)) == Some(idx)
    ensures ParseRow(RowLine(NameOf(names, idx), r), names) == Some((idx, r))
  {
    hide Fields, WhText, Dec, ParseDecimal, ParseUint, RowLine;
    RowFields(NameOf(names, idx), r);
    WhReads(r.wh);
    UintReads(r.busy);
    UintReads(r.tokens);
  }

  lemma RowIsLine(name: string, r: Row)
    requires '\n' !in name && RowOk(r)
    ensures IsLine(RowLine(name, r))
  {
    hide WhText, Dec, ParseDecimal, ParseUint;
    WhReads(r.wh);
    UintReads(r.busy);
    UintReads(r.tokens);
    NoSpaceIn(WhText(r.wh));
    NoSpaceIn(Dec(r.busy));
    NoSpaceIn(Dec(r.tokens));
  }

  lemma NameIsLine(t: Totals, names: seq<string>, k: nat)
    requires Named(t, names) && k in t.rows
    ensures '\n' !in NameOf(names, k) && NameOf(names, k) != []
  {
    var s := NameOf(names, k);
    if k != 0 {
      forall i | 0 <= i < |s| ensures s[i] != '\n' { assert s[i] !in {' ', '\t', '\r', '\n'}; }
    }
  }

  lemma {:induction false} RowLinesAre(t: Totals, names: seq<string>, order: seq<nat>, i: nat)
    requires (forall k :: k in order ==> k in t.rows) && Named(t, names)
    ensures |RowLines(t, names, order)| == |order| && (i < |order| ==> IsLine(RowLines(t, names, order)[i]))
  {
    hide Named, RowLine, IsLine;
    if order != [] {
      var k := order[|order| - 1];
      assert k in order;
      RowLinesAre(t, names, order[..|order| - 1], i);
      NameIsLine(t, names, k);
      RowIsLine(NameOf(names, k), t.rows[k]) by { NamedRow(t, names, k); }
    }
  }

  lemma NamedRow(t: Totals, names: seq<string>, k: nat)
    requires Named(t, names) && k in t.rows
    ensures RowOk(t.rows[k])
    ensures k != 0 ==> k < |names| && ValidClientName(names[k]) && N.Find(names, names[k]) == Some(k)
  {
  }

  // The rows of the clients listed.
  function Listed(rows: Rows, order: seq<nat>): Rows
    requires forall k :: k in order ==> k in rows
  {
    if order == [] then map[]
    else Listed(rows, order[..|order| - 1])[order[|order| - 1] := rows[order[|order| - 1]]]
  }

  lemma {:induction false} ListedAt(rows: Rows, order: seq<nat>, k: nat)
    requires forall k :: k in order ==> k in rows
    ensures k in Listed(rows, order) <==> k in order
    ensures k in order ==> Listed(rows, order)[k] == rows[k]
  {
    if order != [] {
      ListedAt(rows, order[..|order| - 1], k);
      assert order == order[..|order| - 1] + [order[|order| - 1]];
    }
  }

  lemma ListedAll(rows: Rows, order: seq<nat>)
    requires Lists(order, rows)
    ensures Listed(rows, order) == rows
  {
    hide Listed;
    forall k ensures k in Listed(rows, order) <==> k in rows
      ensures k in rows ==> Listed(rows, order)[k] == rows[k]
    {
      ListedAt(rows, order, k);
    }
  }

  lemma RowLinesPush(t: Totals, names: seq<string>, order: seq<nat>)
    requires order != [] && forall k :: k in order ==> k in t.rows
    ensures var init, k := order[..|order| - 1], order[|order| - 1];
      var ls := RowLines(t, names, order);
      && ls != [] && ls[..|ls| - 1] == RowLines(t, names, init) && ls[|ls| - 1] == RowLine(NameOf(names, k), t.rows[k])
  {
    hide RowLine, NameOf;
  }

  lemma {:induction false} RowsRead(t: Totals, names: seq<string>, order: seq<nat>)
    requires (forall k :: k in order ==> k in t.rows) && Named(t, names)
    requires forall k :: k in order && k != 0 ==> SpaceFree(NameOf(names, k))
    ensures ParseRows(RowLines(t, names, order), names) == Some(Listed(t.rows, order))
  {
    hide Named, RowLine, ParseRow, RowLines, SpaceFree, N.Find, ValidClientName, RowOk;
    if order == [] {
      NoRowLines(t, names);
    } else {
      var init, k := order[..|order| - 1], order[|order| - 1];
      assert k in order && forall j :: j in init ==> j in order;
      RowsRead(t, names, init);
      NamedRow(t, names, k);
      NameIsLine(t, names, k);
      if k == 0 { DashFree(); }
      RowReads(names, k, t.rows[k]) by { if k != 0 { NotDash(names[k]); } }
      RowLinesPush(t, names, order);
    }
  }

  lemma NoRowLines(t: Totals, names: seq<string>)
    ensures RowLines(t, names, []) == []
  {
  }

  lemma DashFree()
    ensures SpaceFree("-")
  {
  }

  lemma NotDash(s: string)
    requires ValidClientName(s)
    ensures s != "-"
  {
  }

  lemma LinesOf(t: Totals, names: seq<string>, order: seq<nat>)
    requires (forall k :: k in order ==> k in t.rows) && Named(t, names)
    ensures Lines(TrimNewlines(Render(t, names, order))) == [FirstLine(t)] + RowLines(t, names, order)
  {
    hide Named, FirstLine, RowLines, Lines;
    var ls := [FirstLine(t)] + RowLines(t, names, order);
    FirstReads(t);
    forall i | 0 <= i < |ls| ensures IsLine(ls[i]) {
      if i > 0 { RowLinesAre(t, names, order, i - 1); }
    }
    LinesJoined(ls);
    var s := Joined(ls);
    assert (s + ['\n'])[..|s|] == s;
  }

  // A client's row is found again only if its name is one field.
  lemma {:induction false} KeysAreFields(ls: seq<string>, names: seq<string>, k: nat)
    requires ParseRows(ls, names).Some? && k in ParseRows(ls, names).value && k != 0
    ensures k < |names| && SpaceFree(names[k])
  {
    hide Fields, N.Find, ParseDecimal, ParseUint;
    if ls != [] {
      var l := ls[|ls| - 1];
      if ParseRow(l, names).value.0 == k {
        assert Fields(l)[0] in Fields(l);
      } else {
        KeysAreFields(ls[..|ls| - 1], names, k);
      }
    }
  }

  // Saving the totals and reading them back is the identity exactly when no counted client's
  // name holds a space of any kind.
  lemma SaveReads(t: Totals, names: seq<string>, order: seq<nat>)
    requires Named(t, names) && Lists(order, t.rows)
    ensures Parse(Render(t, names, order), names) == Some(t) <==>
      forall k :: k in t.rows && k != 0 ==> SpaceFree(NameOf(names, k))
  {
    hide Render, Lines, TrimNewlines, Named, RowLines, FirstLine, ParseFirst, SpaceFree;
    LinesOf(t, names, order);
    FirstReads(t);
    var ls := [FirstLine(t)] + RowLines(t, names, order);
    assert ls[1..] == RowLines(t, names, order);
    if forall k :: k in t.rows && k != 0 ==> SpaceFree(NameOf(names, k)) {
      RowsRead(t, names, order);
      ListedAll(t.rows, order);
    } else {
      var k :| k in t.rows && k != 0 && !SpaceFree(NameOf(names, k));
      NamedRow(t, names, k);
      if Parse(Render(t, names, order), names) == Some(t) {
        KeysAreFields(ls[1..], names, k);
      }
    }
  }

  // So it is for the names a node gives its clients.
  lemma NodeNamesRead(t: Totals, names: seq<string>, order: seq<nat>)
    requires Named(t, names) && Lists(order, t.rows)
    requires forall k :: k in t.rows && k != 0 ==> ValidNodeName(NameOf(names, k))
    ensures Parse(Render(t, names, order), names) == Some(t)
  {
    forall k | k in t.rows && k != 0 ensures SpaceFree(NameOf(names, k)) { NodeNamesPlain(NameOf(names, k)); }
    SaveReads(t, names, order);
  }

  // The format itself lets through names that are lost: a vertical tab is a space to the reader.
  lemma TabbedNameLost()
    ensures var name := ['a', 11 as char];
      var t, names := Totals(60, 60, map[1 := Row(0.0, 0, 0)]), ["", name];
      && ValidClientName(name) && Named(t, names) && Lists([1], t.rows)
      && Parse(Render(t, names, [1]), names) != Some(t)
  {
    hide Parse, Render;
    var name := ['a', 11 as char];
    var t, names := Totals(60, 60, map[1 := Row(0.0, 0, 0)]), ["", name];
    assert IsSpace(name[1]);
    assert 1 in t.rows && !SpaceFree(NameOf(names, 1));
    SaveReads(t, names, [1]);
  }

  lemma DecText(n: nat)
    ensures n < 10 ==> Dec(n) == [Digit(n)]
    ensures 10 <= n < 100 ==> Dec(n) == [Digit(n / 10), Digit(n % 10)]
    ensures 100 <= n < 1000 ==> Dec(n) == [Digit(n / 100), Digit(n / 10 % 10), Digit(n % 10)]
  {
    if n >= 10 { assert Dec(n) == Dec(n / 10) + [Digit(n % 10)]; }
    if n >= 100 { assert Dec(n / 10) == Dec(n / 100) + [Digit(n / 10 % 10)]; }
  }

  lemma Texts()
    ensures Dec(60) == "60" && Dec(120) == "120" && Dec(7) == "7" && Dec(8) == "8" && Dec(30) == "30" && Dec(500) == "500"
    ensures WhText(0.25) == "0.250" && WhText(12.5) == "12.500"
  {
    DecText(60);
    DecText(120);
    DecText(7);
    DecText(8);
    DecText(30);
    DecText(500);
    DecText(0);
    DecText(12);
    assert (0.25 * 1000.0).Floor == 250 && (12.5 * 1000.0).Floor == 12500;
    assert "0" + "." + "250" == "0.250" && "12" + "." + "500" == "12.500";
  }

  lemma LineTexts(t: Totals, a: Row, b: Row)
    requires t.since == 60 && t.through == 120 && a == Row(0.25, 7, 8) && b == Row(12.5, 30, 500)
    ensures FirstLine(t) == "since 60 through 120" && RowLine("-", a) == "- 0.250 7 8" && RowLine("a", b) == "a 12.500 30 500"
  {
    hide Dec, WhText;
    Texts();
  }

  lemma TwoLines(t: Totals, names: seq<string>, a: string, b: string, c: string)
    requires 0 in t.rows && 1 in t.rows
    requires a == FirstLine(t) && b == RowLine(NameOf(names, 0), t.rows[0]) && c == RowLine(NameOf(names, 1), t.rows[1])
    ensures Render(t, names, [0, 1]) == a + ['\n'] + (b + ['\n'] + c) + ['\n']
  {
    hide FirstLine, RowLine, NameOf;
    assert [0, 1][..1] == [0] && [0][..0] == [];
    assert RowLines(t, names, [0]) == [b];
    var ls := [a] + RowLines(t, names, [0, 1]);
    assert ls == [a, b, c];
    assert ls[1..] == [b, c] && ls[1..][1..] == [c];
    assert Joined(ls[1..]) == b + ['\n'] + c;
  }

  // The file as it is written: a line for the marks, and one for each client, nobody as a dash.
  lemma FileText()
    ensures Render(Totals(60, 120, map[0 := Row(0.25, 7, 8), 1 := Row(12.5, 30, 500)]), ["", "a"], [0, 1]) ==
      "since 60 through 120\n- 0.250 7 8\na 12.500 30 500\n"
  {
    hide Render, FirstLine, RowLine;
    var t, names := Totals(60, 120, map[0 := Row(0.25, 7, 8), 1 := Row(12.5, 30, 500)]), ["", "a"];
    LineTexts(t, t.rows[0], t.rows[1]);
    TwoLines(t, names, "since 60 through 120", "- 0.250 7 8", "a 12.500 30 500");
  }
}

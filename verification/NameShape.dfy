/** The shape of a written name: whole segments, then a zero octet or a pointer. */
module NameShape {
  import opened Bytes
  import opened Names
  import opened Writers
  import opened LabelWriter

  /** What ends a name: a pointer to the entry found, or the zero octet. */
  function Ending(last: bool, hit: Option<Entry>): seq<byte>
  {
    if !last then [] else match hit case None => [0] case Some(e) => PointerTo(e.off)
  }

  /** The segments left to the pointer. */
  function Pointed(hit: Option<Entry>): Name
  {
    match hit case None => [] case Some(e) => StrSegs(e.text)
  }

  /** One step of `serialize_str` past a segment that no pointer replaces. */
  lemma StrStep(s: seq<byte>, last: bool, pos: nat, table: Table, limit: Option<nat>, tail: Name) returns (r: Emission)
    requires s != [] && !(last && Find(table, s).Some?)
    ensures r == EmitStr(AfterDot(s), last, pos + 1 + |FirstSeg(s)|, StrStored(s, pos, table, limit, tail), limit, tail)
    ensures EmitStr(s, last, pos, table, limit, tail) ==
            Emission(LenSeg(FirstSeg(s)) + r.bytes, r.table, [FirstSeg(s)] + r.full, r.hit)
    ensures StrSegs(s) == [FirstSeg(s)] + StrSegs(AfterDot(s))
  {
    r := EmitAfter(s, last, pos, table, limit, tail);
  }

  lemma StrStop(s: seq<byte>, last: bool, pos: nat, table: Table, limit: Option<nat>, tail: Name)
    requires s == [] || (last && Find(table, s).Some?)
    ensures EmitStr(s, last, pos, table, limit, tail) ==
            if s == [] then Emission(if last then [0] else [], table, [], None)
            else Emission(PointerTo(Find(table, s).value.off), table, [], Find(table, s))
    ensures s == [] ==> StrSegs(s) == []
  {
  }

  lemma {:induction false} StrShape(s: seq<byte>, last: bool, pos: nat, table: Table, limit: Option<nat>, tail: Name)
    ensures var e := EmitStr(s, last, pos, table, limit, tail);
      && e.bytes == Raw(e.full) + Ending(last, e.hit)
      && StrSegs(s) == e.full + Pointed(e.hit)
      && (e.hit.Some? ==> last && e.hit.value.text != [])
    decreases |s|
  {
    hide Find, Raw, EmitStr, StrSegs, FirstSeg, Store;
    if s == [] || (last && Find(table, s).Some?) {
      StrStop(s, last, pos, table, limit, tail);
      RawEmpty();
      FindIs(table, s);
    } else {
      var r := StrStep(s, last, pos, table, limit, tail);
      StrShape(AfterDot(s), last, pos + 1 + |FirstSeg(s)|, StrStored(s, pos, table, limit, tail), limit, tail);
      RawCons(FirstSeg(s), r.full);
      Assoc(LenSeg(FirstSeg(s)), Raw(r.full), Ending(last, r.hit));
      Assoc([FirstSeg(s)], r.full, Pointed(r.hit));
    }
  }

  lemma RawEmpty()
    ensures Raw([]) == []
  {
  }

  lemma RawCons(seg: Seg, segs: Name)
    ensures Raw([seg] + segs) == LenSeg(seg) + Raw(segs)
  {
    assert ([seg] + segs)[1..] == segs;
  }

  lemma FindIs(table: Table, s: seq<byte>)
    ensures Find(table, s).Some? ==> Find(table, s).value in table && Find(table, s).value.text == s
  {
  }

  lemma StoreIs(table: Table, e: Entry, limit: Option<nat>)
    ensures table <= Store(table, e, limit)
    ensures forall x :: x in Store(table, e, limit) ==> x in table || x == e
    ensures forall x :: x in Store(table, e, limit)[|table|..] ==> x == e
  {
  }

  // ---------------------------------------------------------------- table entries

  /**
   `e` stands at the `k`-th of the segments written out in full: it denotes what is left of the
   name from there on, its own text being a prefix of that.
   */
  ghost predicate OwnAt(e: Entry, k: nat, pos: nat, full: Name, all: Name)
  {
    && k < |full| && full <= all
    && e.off == pos + |Raw(full[..k])|
    && e.segs == all[k..]
    && StrSegs(e.text) <= e.segs
  }

  ghost predicate Own(e: Entry, pos: nat, full: Name, all: Name)
  {
    exists k: nat :: OwnAt(e, k, pos, full, all)
  }

  lemma OwnShift(e: Entry, k: nat, pos: nat, full: Name, all: Name, before: Name, start: nat)
    requires OwnAt(e, k, pos, full, all) && pos == start + |Raw(before)|
    ensures OwnAt(e, |before| + k, start, before + full, before + all)
  {
    assert (before + full)[..|before| + k] == before + full[..k];
    RawConcat(before, full[..k]);
    assert (before + all)[|before| + k..] == all[k..];
  }

  lemma {:induction false} StrKeeps(s: seq<byte>, last: bool, pos: nat, table: Table, limit: Option<nat>, tail: Name)
    ensures table <= EmitStr(s, last, pos, table, limit, tail).table
    decreases |s|
  {
    hide Find, StrSegs;
    if s != [] && !(last && Find(table, s).Some?) {
      StrKeeps(AfterDot(s), last, pos + 1 + |FirstSeg(s)|, StrStored(s, pos, table, limit, tail), limit, tail);
    }
  }

  /** `x` is among the entries that `after` has on top of `before`. */
  predicate Added(x: Entry, before: Table, after: Table)
  {
    before <= after && x in after[|before|..]
  }

  lemma AddedSplit(x: Entry, a: Table, b: Table, c: Table)
    requires Added(x, a, c) && a <= b <= c
    ensures Added(x, a, b) || Added(x, b, c)
  {
    var i :| 0 <= i < |c[|a|..]| && c[|a|..][i] == x;
    if |a| + i < |b| {
      assert b[|a|..][i] == x;
    } else {
      assert c[|b|..][|a| + i - |b|] == x;
    }
  }

  lemma AddedAny(x: Entry, a: Table, b: Table)
    requires a <= b && x in b && x !in a
    ensures Added(x, a, b)
  {
    assert b == a + b[|a|..];
  }

  lemma AddedNone(x: Entry, table: Table)
    ensures !Added(x, table, table)
  {
  }

  lemma AddedOne(x: Entry, table: Table, e: Entry, limit: Option<nat>)
    requires Added(x, table, Store(table, e, limit))
    ensures x.text == e.text && x.off == e.off && x.segs == e.segs
  {
  }

  lemma {:induction false} StrTable(s: seq<byte>, last: bool, pos: nat, table: Table, limit: Option<nat>, tail: Name,
                                    x: Entry)
    requires Added(x, table, EmitStr(s, last, pos, table, limit, tail).table)
    ensures x.segs == StrSegs(x.text) + tail
    ensures Own(x, pos, EmitStr(s, last, pos, table, limit, tail).full, StrSegs(s) + tail)
    decreases |s|
  {
    hide Find, Raw, Store, EmitStr, StrSegs, FirstSeg, Own, Added;
    if s == [] || (last && Find(table, s).Some?) {
      StrStop(s, last, pos, table, limit, tail);
      AddedNone(x, table);
      assert false;
    } else {
      var seg, stored := FirstSeg(s), StrStored(s, pos, table, limit, tail);
      var r := StrStep(s, last, pos, table, limit, tail);
      StoreIs(table, Entry(s, pos, StrSegs(s) + tail, 0), limit);
      StrKeeps(AfterDot(s), last, pos + 1 + |seg|, stored, limit, tail);
      AddedSplit(x, table, stored, r.table);
      Assoc([seg], StrSegs(AfterDot(s)), tail);
      if Added(x, stored, r.table) {
        StrTable(AfterDot(s), last, pos + 1 + |seg|, stored, limit, tail, x);
        RawOne(seg);
        OwnLater(x, pos + 1 + |seg|, r.full, StrSegs(AfterDot(s)) + tail, [seg], pos);
      } else {
        AddedOne(x, table, Entry(s, pos, StrSegs(s) + tail, 0), limit);
        StrShape(s, last, pos, table, limit, tail);
        OwnFirst(x, pos, [seg] + r.full, StrSegs(s), Pointed(r.hit), tail);
      }
    }
  }

  lemma OwnLater(e: Entry, pos: nat, full: Name, all: Name, before: Name, start: nat)
    requires Own(e, pos, full, all) && pos == start + |Raw(before)|
    ensures Own(e, start, before + full, before + all)
  {
    var k: nat :| OwnAt(e, k, pos, full, all);
    OwnShift(e, k, pos, full, all, before, start);
  }

  lemma OwnFirst(e: Entry, pos: nat, full: Name, segs: Name, rest: Name, tail: Name)
    requires full != [] && segs == full + rest
    requires e.off == pos && e.segs == segs + tail && StrSegs(e.text) == segs
    ensures Own(e, pos, full, segs + tail)
  {
    hide StrSegs;
    assert full[..0] == [];
    RawEmpty();
    assert OwnAt(e, 0, pos, full, segs + tail);
  }

  lemma RawOne(seg: Seg)
    ensures |Raw([seg])| == 1 + |seg|
  {
    assert Raw([seg]) == [|seg| % 0x100] + seg + Raw([]);
  }

  /** The entries a string adds to the table are longer than any suffix still looked up. */
  lemma {:induction false} StrHit(s: seq<byte>, last: bool, pos: nat, table: Table, limit: Option<nat>, tail: Name,
                                  before: Table)
    requires forall x :: x in table ==> x in before || |x.text| > |s|
    ensures var e := EmitStr(s, last, pos, table, limit, tail); e.hit.Some? ==> e.hit.value in before
    decreases |s|
  {
    hide Find, Raw, StrSegs, Store, EmitStr, FirstSeg;
    if s == [] || (last && Find(table, s).Some?) {
      StrStop(s, last, pos, table, limit, tail);
      FindIs(table, s);
    } else {
      var r := StrStep(s, last, pos, table, limit, tail);
      StoreIs(table, Entry(s, pos, StrSegs(s) + tail, 0), limit);
      StrHit(AfterDot(s), last, pos + 1 + |FirstSeg(s)|, StrStored(s, pos, table, limit, tail), limit, tail, before);
    }
  }

  // ---------------------------------------------------------------- whole names

  /** The two steps of writing a name: its first part, written in full, and the others. */
  lemma FirstPart(items: seq<Part>, pos: nat, table: Table, limit: Option<nat>) returns (e: Emission, r: Emission)
    requires StrItems(items)
    ensures e == EmitStr(items[0].text, |items| == 1, pos, table, limit, ItemsSegs(items[1..]))
    ensures r == EmitItems(items[1..], pos + |e.bytes|, e.table, limit)
    ensures EmitItems(items, pos, table, limit) == Then(e, r)
    ensures |items| > 1 ==> StrItems(items[1..]) && e.hit.None?
    ensures |items| > 1 ==> e.full == StrSegs(items[0].text) && e.bytes == Raw(e.full)
    ensures |items| == 1 ==> r == Emission([], e.table, [], None) && ItemsSegs(items[1..]) == []
    ensures ItemsSegs(items) == StrSegs(items[0].text) + ItemsSegs(items[1..])
  {
    hide Raw, StrSegs, EmitStr;
    e := EmitStr(items[0].text, |items| == 1, pos, table, limit, ItemsSegs(items[1..]));
    r := EmitItems(items[1..], pos + |e.bytes|, e.table, limit);
    StrShape(items[0].text, |items| == 1, pos, table, limit, ItemsSegs(items[1..]));
  }

  lemma {:induction false} ItemsShape(items: seq<Part>, pos: nat, table: Table, limit: Option<nat>)
    requires StrItems(items)
    ensures var e := EmitItems(items, pos, table, limit);
      && e.bytes == Raw(e.full) + Ending(true, e.hit)
      && ItemsSegs(items) == e.full + Pointed(e.hit)
      && (e.hit.Some? ==> e.hit.value.text != [])
  {
    hide Raw, StrSegs, EmitStr, EmitItems, ItemsSegs;
    var e, r := FirstPart(items, pos, table, limit);
    StrShape(items[0].text, |items| == 1, pos, table, limit, ItemsSegs(items[1..]));
    if |items| > 1 {
      ItemsShape(items[1..], pos + |e.bytes|, e.table, limit);
      RawConcat(e.full, r.full);
      Assoc(Raw(e.full), Raw(r.full), Ending(true, r.hit));
      Assoc(e.full, r.full, Pointed(r.hit));
    } else {
      assert ItemsSegs(items) == StrSegs(items[0].text);
      assert e.full + [] == e.full && e.bytes + [] == e.bytes;
    }
  }

  lemma {:induction false} ItemsKeep(items: seq<Part>, pos: nat, table: Table, limit: Option<nat>)
    ensures table <= EmitItems(items, pos, table, limit).table
  {
    hide Raw, StrSegs, EmitStr;
    if items != [] {
      var e := EmitPart(items[0], |items| == 1, pos, table, limit, ItemsSegs(items[1..]));
      match items[0] {
        case Run(_, _) =>
        case Str(text) => StrKeeps(text, |items| == 1, pos, table, limit, ItemsSegs(items[1..]));
      }
      ItemsKeep(items[1..], pos + |e.bytes|, e.table, limit);
    }
  }

  /** Every entry a name adds is one of its own. */
  lemma {:induction false} ItemsTable(items: seq<Part>, pos: nat, table: Table, limit: Option<nat>, x: Entry)
    requires StrItems(items) && Added(x, table, EmitItems(items, pos, table, limit).table)
    ensures Own(x, pos, EmitItems(items, pos, table, limit).full, ItemsSegs(items))
  {
    hide Raw, StrSegs, EmitStr, EmitItems, ItemsSegs, Own;
    var e, r := FirstPart(items, pos, table, limit);
    StrKeeps(items[0].text, |items| == 1, pos, table, limit, ItemsSegs(items[1..]));
    ItemsKeep(items[1..], pos + |e.bytes|, e.table, limit);
    AddedSplit(x, table, e.table, r.table);
    if Added(x, table, e.table) {
      PartTable(items, pos, table, limit, x);
    } else {
      ItemsTable(items[1..], pos + |e.bytes|, e.table, limit, x);
      OwnLater(x, pos + |e.bytes|, r.full, ItemsSegs(items[1..]), e.full, pos);
    }
  }

  lemma PartTable(items: seq<Part>, pos: nat, table: Table, limit: Option<nat>, x: Entry)
    requires StrItems(items)
    requires Added(x, table, EmitStr(items[0].text, |items| == 1, pos, table, limit, ItemsSegs(items[1..])).table)
    ensures Own(x, pos, EmitItems(items, pos, table, limit).full, ItemsSegs(items))
    ensures x.segs == StrSegs(x.text) + ItemsSegs(items[1..])
  {
    hide Raw, StrSegs, EmitStr, EmitItems, ItemsSegs;
    var tail := ItemsSegs(items[1..]);
    var e, r := FirstPart(items, pos, table, limit);
    StrTable(items[0].text, |items| == 1, pos, table, limit, tail, x);
    var k: nat :| OwnAt(x, k, pos, e.full, ItemsSegs(items));
    ItemsShape(items, pos, table, limit);
    assert (e.full + r.full)[..k] == e.full[..k];
    assert OwnAt(x, k, pos, e.full + r.full, ItemsSegs(items));
  }

  /**
   The entry a name's pointer leads to was there before the name, or it belongs to an earlier part
   of the same name and then denotes more than its text.
   */
  lemma {:induction false} ItemsHit(items: seq<Part>, pos: nat, table: Table, limit: Option<nat>)
    requires StrItems(items)
    ensures var e := EmitItems(items, pos, table, limit);
      e.hit.Some? && e.hit.value !in table ==>
        Own(e.hit.value, pos, e.full, ItemsSegs(items)) && |e.hit.value.segs| > |StrSegs(e.hit.value.text)|
  {
    hide Raw, StrSegs, EmitStr, EmitItems, ItemsSegs, Own;
    var tail := ItemsSegs(items[1..]);
    var e, r := FirstPart(items, pos, table, limit);
    if |items| == 1 {
      StrHit(items[0].text, true, pos, table, limit, tail, table);
    } else if r.hit.Some? && r.hit.value !in table {
      var x := r.hit.value;
      if x in e.table {
        StrKeeps(items[0].text, false, pos, table, limit, tail);
        AddedAny(x, table, e.table);
        PartTable(items, pos, table, limit, x);
        ItemsShape(items[1..], pos + |e.bytes|, e.table, limit);
        SomeSegs(x.text);
      } else {
        ItemsHit(items[1..], pos + |e.bytes|, e.table, limit);
        OwnLater(x, pos + |e.bytes|, r.full, tail, e.full, pos);
      }
    }
  }

  lemma SomeSegs(s: seq<byte>)
    requires s != []
    ensures StrSegs(s) != []
  {
  }
}

/** Names that are already in the table: what they read as, and that they stay there. */
module Lookup {
  import opened Bytes
  import opened Names
  import opened Writers
  import opened LabelParser
  import opened LabelWriter
  import opened NameShape
  import opened NameTrip
  import opened Messages
  import opened NoClash
  import opened Readings

  const FREE: Option<nat> := None

  function Text(s: seq<byte>): Label
  {
    Label([Str(s)])
  }

  function TwoTexts(a: seq<byte>, s: seq<byte>): Label
  {
    Label([Str(a), Str(s)])
  }

  // ---------------------------------------------------------------- finding entries

  lemma {:induction false} FindPrefix(a: Table, b: Table, s: seq<byte>)
    requires a <= b && Find(a, s).Some?
    ensures Find(b, s) == Find(a, s)
  {
    if a[0].text != s {
      assert a[1..] <= b[1..];
      FindPrefix(a[1..], b[1..], s);
    }
  }

  lemma {:induction false} FindAppended(a: Table, e: Entry, s: seq<byte>)
    requires Find(a, s).None?
    ensures Find(a + [e], s) == if e.text == s then Some(e) else None
  {
    if a != [] {
      assert (a + [e])[1..] == a[1..] + [e];
      FindAppended(a[1..], e, s);
    }
  }

  lemma SealTail(t: Table, n: nat, hit: Option<Entry>)
    requires t != [] && n <= |t|
    ensures Seal(t, n, hit)[1..] == Seal(t[1..], if n > 0 then n - 1 else 0, hit)
    ensures Seal(t, n, hit)[0] == if n > 0 then t[0] else Sealed(t[0], hit)
  {
    hide Sealed, Seal, Erase;
    var a, b := Seal(t, n, hit)[1..], Seal(t[1..], if n > 0 then n - 1 else 0, hit);
    forall i | 0 <= i < |t| - 1
      ensures a[i] == b[i]
    {
      assert a[i] == Seal(t, n, hit)[i + 1] && t[1..][i] == t[i + 1];
    }
  }

  /** Sealing changes what entries denote, not which of them is found. */
  lemma {:induction false} FindSealed(t: Table, n: nat, hit: Option<Entry>, s: seq<byte>)
    requires n <= |t| && Find(t[..n], s).None?
    ensures Find(Seal(t, n, hit), s) ==
            match Find(t, s) case None => None case Some(x) => Some(Sealed(x, hit))
  {
    hide Sealed, Seal;
    if t == [] {
      assert Seal(t, n, hit) == [];
    } else {
      var m := if n > 0 then n - 1 else 0;
      SealedText(t[0], hit);
      SealTail(t, n, hit);
      if n > 0 {
        assert t[..n][0] == t[0] && t[..n][1..] == t[1..][..m];
      } else {
        assert t[1..][..m] == [];
      }
      FindSealed(t[1..], m, hit, s);
    }
  }

  lemma SealedText(x: Entry, hit: Option<Entry>)
    ensures Sealed(x, hit).text == x.text
  {
  }

  lemma LabelKeeps(lab: Label, pos: nat, table: Table, limit: Option<nat>)
    ensures table <= EmitLabel(lab, pos, table, limit).table
  {
    hide EmitItems, Sealed;
    ItemsKeep(lab.items, pos, table, limit);
    var e := EmitItems(lab.items, pos, table, limit);
    assert Seal(e.table, |table|, e.hit)[..|table|] == table;
  }

  lemma {:induction false} SuffixIsShort(s: seq<byte>, u: seq<byte>)
    requires u in Suffixes(s)
    ensures 0 < |u| <= |s|
    decreases |s|
  {
    if u != s {
      SuffixIsShort(AfterDot(s), u);
    }
  }

  lemma SuffixesAre(s: seq<byte>)
    requires s != []
    ensures Suffixes(s) == {s} + Suffixes(AfterDot(s)) && |AfterDot(s)| < |s|
  {
  }

  /** One step of `serialize_str` with room in the table. */
  lemma StepFree(s: seq<byte>, last: bool, pos: nat, table: Table, tail: Name) returns (r: Emission, more: Table)
    requires s != [] && !(last && Find(table, s).Some?)
    ensures more == table + [Entry(s, pos, StrSegs(s) + tail, 0)]
    ensures r == EmitStr(AfterDot(s), last, pos + 1 + |FirstSeg(s)|, more, FREE, tail) && more <= r.table
    ensures EmitStr(s, last, pos, table, FREE, tail) ==
            Emission(LenSeg(FirstSeg(s)) + r.bytes, r.table, [FirstSeg(s)] + r.full, r.hit)
    ensures StrSegs(s) == [FirstSeg(s)] + StrSegs(AfterDot(s))
  {
    hide Find, StrSegs, EmitStr, FirstSeg;
    r := StrStep(s, last, pos, table, FREE, tail);
    more := StrStored(s, pos, table, FREE, tail);
    StrKeeps(AfterDot(s), last, pos + 1 + |FirstSeg(s)|, more, FREE, tail);
  }

  // ---------------------------------------------------------------- one part and two parts

  lemma TextIs(s: seq<byte>, pos: nat, table: Table)
    ensures EmitItems(Text(s).items, pos, table, FREE) == EmitStr(s, true, pos, table, FREE, [])
  {
    hide EmitStr;
    var e := EmitStr(s, true, pos, table, FREE, []);
    assert ItemsSegs([Str(s)][1..]) == [];
    assert EmitItems([Str(s)], pos, table, FREE) == Then(e, EmitItems([Str(s)][1..], pos + |e.bytes|, e.table, FREE));
    assert e.bytes + [] == e.bytes && e.full + [] == e.full;
  }

  /** Two parts: the first in full, then the second at its offset. */
  lemma TwoAre(a: seq<byte>, s: seq<byte>, pos: nat, table: Table) returns (e: Emission)
    ensures e == EmitStr(a, false, pos, table, FREE, StrSegs(s))
    ensures EmitItems(TwoTexts(a, s).items, pos, table, FREE) ==
            Then(e, EmitStr(s, true, pos + |e.bytes|, e.table, FREE, []))
    ensures e.full == StrSegs(a) && e.hit.None? && table <= e.table
  {
    hide EmitStr, StrSegs;
    var items := TwoTexts(a, s).items;
    assert items[1..] == Text(s).items;
    OnePart(s);
    e := EmitStr(a, false, pos, table, FREE, StrSegs(s));
    StrShape(a, false, pos, table, FREE, StrSegs(s));
    StrKeeps(a, false, pos, table, FREE, StrSegs(s));
    assert e.full + [] == e.full;
    TextIs(s, pos + |e.bytes|, e.table);
  }

  // ---------------------------------------------------------------- names that are found

  /** `s` is in the table and stands for `segs`, read with `hops` pointers. */
  predicate Knows(table: Table, s: seq<byte>, segs: Name, hops: nat)
  {
    s != [] && Find(table, s).Some? && Find(table, s).value.segs == segs && Find(table, s).value.hops == hops
  }

  lemma KnowsMore(a: Table, b: Table, s: seq<byte>, segs: Name, hops: nat)
    requires Knows(a, s, segs, hops) && a <= b
    ensures Knows(b, s, segs, hops)
  {
    hide Find;
    FindPrefix(a, b, s);
  }

  /** A known text is written as a pointer and reads as what is known. */
  lemma TextKnown(s: seq<byte>, pos: nat, table: Table, segs: Name, hops: nat)
    requires Knows(table, s, segs, hops)
    ensures EmitLabel(Text(s), pos, table, FREE).table == table
    ensures Reading(Text(s), pos, table, FREE) == if hops < BUDGET then Some(segs) else None
  {
    hide Find, StrSegs;
    TextIs(s, pos, table);
    StrStop(s, true, pos, table, FREE, []);
    assert Text(s).items[0].Str?;
    assert Seal(table, |table|, Find(table, s)) == table;
    assert [] + segs == segs;
  }

  /** So is a known last part, after the first part in full. */
  lemma TwoKnown(a: seq<byte>, s: seq<byte>, pos: nat, table: Table, segs: Name, hops: nat)
    requires Knows(table, s, segs, hops)
    ensures Reading(TwoTexts(a, s), pos, table, FREE) == if hops < BUDGET then Some(StrSegs(a) + segs) else None
    ensures var first := EmitStr(a, false, pos, table, FREE, StrSegs(s));
      && table <= first.table
      && EmitLabel(TwoTexts(a, s), pos, table, FREE).table == Seal(first.table, |table|, Find(table, s))
  {
    hide Find, StrSegs, EmitStr, Seal;
    var e := TwoAre(a, s, pos, table);
    FindPrefix(table, e.table, s);
    StrStop(s, true, pos + |e.bytes|, e.table, FREE, []);
    assert TwoTexts(a, s).items[0].Str?;
    assert e.full + [] == e.full;
  }

  /** All suffixes of an early part are stored, for more than they say. */
  lemma {:induction false} EarlyStored(a: seq<byte>, u: seq<byte>, pos: nat, table: Table, tail: Name)
    requires u in Suffixes(a) && Find(table, u).None?
    ensures var x := Find(EmitStr(a, false, pos, table, FREE, tail).table, u);
      x.Some? && x.value.segs == StrSegs(u) + tail
    decreases |a|
  {
    hide Find, StrSegs, EmitStr, FirstSeg, Suffixes;
    SuffixIsShort(a, u);
    SuffixesAre(a);
    var r, more := StepFree(a, false, pos, table, tail);
    FindAppended(table, Entry(a, pos, StrSegs(a) + tail, 0), u);
    if u == a {
      FindPrefix(more, r.table, u);
    } else {
      EarlyStored(AfterDot(a), u, pos + 1 + |FirstSeg(a)|, more, tail);
    }
  }

  /** Once the name is written, a suffix of its early part is known for what it really reads as. */
  lemma EarlyKnown(a: seq<byte>, s: seq<byte>, u: seq<byte>, pos: nat, table: Table, segs: Name, hops: nat)
    requires Knows(table, s, segs, hops) && u in Suffixes(a) && Find(table, u).None?
    ensures Knows(EmitLabel(TwoTexts(a, s), pos, table, FREE).table, u, StrSegs(u) + segs, hops + 1)
  {
    hide Find, StrSegs, EmitStr, Suffixes, Seal, Reading;
    TwoKnown(a, s, pos, table, segs, hops);
    EarlyStored(a, u, pos, table, StrSegs(s));
    SuffixIsShort(a, u);
    var t := EmitStr(a, false, pos, table, FREE, StrSegs(s)).table;
    assert t[..|table|] == table;
    FindSealed(t, |table|, Find(table, s), u);
    var x := Find(t, u).value;
    assert (StrSegs(u) + StrSegs(s))[..|StrSegs(u)|] == StrSegs(u);
  }

  // ---------------------------------------------------------------- names that are new

  /** A text with no suffix in the table is written in full, and known from then on. */
  lemma {:induction false} StrNew(s: seq<byte>, pos: nat, table: Table)
    requires forall u :: u in Suffixes(s) ==> Find(table, u).None?
    ensures var e := EmitStr(s, true, pos, table, FREE, []);
      && e.hit.None? && e.full == StrSegs(s)
      && (s != [] ==> Find(e.table, s).Some? && Find(e.table, s).value.segs == StrSegs(s))
    decreases |s|
  {
    hide Find, StrSegs, EmitStr, FirstSeg, Suffixes;
    if s == [] {
      StrStop(s, true, pos, table, FREE, []);
    } else {
      SuffixesAre(s);
      assert s in Suffixes(s);
      var r, more := StepFree(s, true, pos, table, []);
      var entry := Entry(s, pos, StrSegs(s) + [], 0);
      forall u | u in Suffixes(AfterDot(s))
        ensures Find(more, u).None?
      {
        SuffixIsShort(AfterDot(s), u);
        assert u in Suffixes(s);
        FindAppended(table, entry, u);
      }
      StrNew(AfterDot(s), pos + 1 + |FirstSeg(s)|, more);
      FindAppended(table, entry, s);
      FindPrefix(more, r.table, s);
    }
  }

  lemma TextNew(s: seq<byte>, pos: nat, table: Table)
    requires s != [] && forall u :: u in Suffixes(s) ==> Find(table, u).None?
    ensures Reading(Text(s), pos, table, FREE) == Some(StrSegs(s))
    ensures Knows(EmitLabel(Text(s), pos, table, FREE).table, s, StrSegs(s), 0)
  {
    hide Find, StrSegs, EmitStr, Suffixes, Seal;
    TextIs(s, pos, table);
    StrNew(s, pos, table);
    StrKeeps(s, true, pos, table, FREE, []);
    var e := EmitStr(s, true, pos, table, FREE, []);
    assert Text(s).items[0].Str?;
    assert e.full + [] == e.full;
    assert e.table[..|table|] == table;
    SelfSuffix(s);
    FindSealed(e.table, |table|, None, s);
  }

  lemma SelfSuffix(s: seq<byte>)
    requires s != []
    ensures s in Suffixes(s)
  {
  }

  // ---------------------------------------------------------------- texts that stay out

  lemma {:induction false} StrAbsent(s: seq<byte>, last: bool, pos: nat, table: Table, tail: Name, u: seq<byte>)
    requires Find(table, u).None? && u !in Suffixes(s)
    ensures Find(EmitStr(s, last, pos, table, FREE, tail).table, u).None?
    decreases |s|
  {
    hide Find, StrSegs, EmitStr, FirstSeg, Suffixes;
    if s == [] || (last && Find(table, s).Some?) {
      StrStop(s, last, pos, table, FREE, tail);
    } else {
      SuffixesAre(s);
      var r, more := StepFree(s, last, pos, table, tail);
      FindAppended(table, Entry(s, pos, StrSegs(s) + tail, 0), u);
      StrAbsent(AfterDot(s), last, pos + 1 + |FirstSeg(s)|, more, tail, u);
    }
  }

  lemma TextAbsent(s: seq<byte>, pos: nat, table: Table, u: seq<byte>)
    requires Find(table, u).None? && u !in Suffixes(s)
    ensures Find(EmitLabel(Text(s), pos, table, FREE).table, u).None?
  {
    hide Find, StrSegs, EmitStr, Suffixes, Seal;
    TextIs(s, pos, table);
    StrAbsent(s, true, pos, table, [], u);
    StrKeeps(s, true, pos, table, FREE, []);
    var e := EmitStr(s, true, pos, table, FREE, []);
    assert e.table[..|table|] == table;
    FindSealed(e.table, |table|, e.hit, u);
  }

  lemma TwoAbsent(a: seq<byte>, s: seq<byte>, pos: nat, table: Table, segs: Name, hops: nat, u: seq<byte>)
    requires Knows(table, s, segs, hops) && Find(table, u).None? && u !in Suffixes(a)
    ensures Find(EmitLabel(TwoTexts(a, s), pos, table, FREE).table, u).None?
  {
    hide Find, StrSegs, EmitStr, Suffixes, Seal, Reading;
    TwoKnown(a, s, pos, table, segs, hops);
    StrAbsent(a, false, pos, table, StrSegs(s), u);
    var e := EmitStr(a, false, pos, table, FREE, StrSegs(s));
    assert e.table[..|table|] == table;
    FindSealed(e.table, |table|, Find(table, s), u);
  }

  // ---------------------------------------------------------------- answers of known names

  /** The text is in the table for `segs`, with pointers to spare. */
  predicate Ready(table: Table, s: seq<byte>, segs: Name)
  {
    s != [] && Find(table, s).Some? && Find(table, s).value.segs == segs && Find(table, s).value.hops < BUDGET
  }

  /** The last part of the name is in the table, and with what it stands for the name is `segs`. */
  predicate KnownName(table: Table, lab: Label, segs: Name)
  {
    (|lab.items| == 1 && lab.items[0].Str? && Ready(table, lab.items[0].text, segs)) ||
    (&& |lab.items| == 2 && lab.items[0].Str? && lab.items[1].Str?
     && var first := StrSegs(lab.items[0].text);
     first <= segs && Ready(table, lab.items[1].text, segs[|first|..]))
  }

  lemma NameKnown(lab: Label, pos: nat, table: Table, segs: Name)
    requires KnownName(table, lab, segs)
    ensures Reading(lab, pos, table, FREE) == Some(segs)
  {
    hide Find, StrSegs, Reading;
    if |lab.items| == 1 {
      var s := lab.items[0].text;
      assert lab == Text(s);
      TextKnown(s, pos, table, segs, Find(table, s).value.hops);
    } else {
      var a, s := lab.items[0].text, lab.items[1].text;
      assert lab == TwoTexts(a, s);
      var more := segs[|StrSegs(a)|..];
      TwoKnown(a, s, pos, table, more, Find(table, s).value.hops);
      assert segs == StrSegs(a) + more;
    }
  }

  lemma StillKnown(a: Table, b: Table, lab: Label, segs: Name)
    requires KnownName(a, lab, segs) && a <= b
    ensures KnownName(b, lab, segs)
  {
    hide Find, StrSegs;
    FindPrefix(a, b, lab.items[|lab.items| - 1].text);
  }

  predicate KnownRecord(table: Table, r: Record<Label>, v: Record<Name>)
  {
    match r
    case RecA(v4) => v == RecA(v4)
    case RecAAAA(v6) => v == RecAAAA(v6)
    case RecTXT(text) => v == RecTXT(text)
    case RecPTR(name) => v.RecPTR? && KnownName(table, name, v.name)
    case RecSRV(priority, weight, port, target) =>
      v.RecSRV? && v == RecSRV(priority, weight, port, v.target)
      && KnownName(table, target, v.target)
  }

  predicate KnownAnswer(table: Table, a: Answer<Label>, v: Answer<Name>)
  {
    && v.atype == a.atype && v.aclass == a.aclass && v.ttl == a.ttl
    && KnownName(table, a.name, v.name) && KnownRecord(table, a.record, v.record)
  }

  lemma RecordKnown(r: Record<Label>, v: Record<Name>, pos: nat, table: Table, known: Table)
    requires KnownRecord(known, r, v) && known <= table
    ensures ReadRecord(r, pos, table, FREE) == Some(v) && table <= EmitRecord(r, pos, table, FREE).table
  {
    hide KnownName, EmitLabel, Reading;
    match r
    case RecPTR(name) =>
      StillKnown(known, table, name, v.name);
      NameKnown(name, pos + 2, table, v.name);
      LabelKeeps(name, pos + 2, table, FREE);
    case RecSRV(_, _, _, target) =>
      StillKnown(known, table, target, v.target);
      NameKnown(target, pos + 8, table, v.target);
      LabelKeeps(target, pos + 8, table, FREE);
    case _ =>
  }

  lemma AnswerKnown(a: Answer<Label>, v: Answer<Name>, pos: nat, table: Table, known: Table)
    requires KnownAnswer(known, a, v) && known <= table
    ensures ReadAnswer(a, pos, table, FREE) == Some(v) && table <= EmitAnswer(a, pos, table, FREE).table
  {
    hide KnownName, EmitLabel, Reading, KnownRecord, ReadRecord, EmitRecord;
    StillKnown(known, table, a.name, v.name);
    NameKnown(a.name, pos, table, v.name);
    LabelKeeps(a.name, pos, table, FREE);
    var e := EmitLabel(a.name, pos, table, FREE);
    RecordKnown(a.record, v.record, pos + |e.bytes| + 8, e.table, known);
  }

  /** Answers of known names read as what is known, wherever they are written. */
  lemma {:induction false} AnswersKnown(xs: seq<Answer<Label>>, vs: seq<Answer<Name>>, pos: nat, table: Table,
                                        known: Table)
    requires |xs| == |vs| && known <= table
    requires forall i :: 0 <= i < |xs| ==> KnownAnswer(known, xs[i], vs[i])
    ensures ReadAnswers(xs, pos, table, FREE) == Some(vs)
  {
    hide KnownAnswer, ReadAnswer, EmitAnswer;
    if xs != [] {
      AnswerKnown(xs[0], vs[0], pos, table, known);
      var e := EmitAnswer(xs[0], pos, table, FREE);
      AnswersKnown(xs[1..], vs[1..], pos + |e.bytes|, e.table, known);
      assert vs == [vs[0]] + vs[1..];
    }
  }
}

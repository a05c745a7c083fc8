/** A simple condition under which every name survives the trip, and the hop bound behind it. */
module NoClash {
  import opened Bytes
  import opened Names
  import opened Writers
  import opened LabelParser
  import opened LabelWriter
  import opened NameShape
  import opened NameTrip
  import opened Messages
  import opened MessageTrip

  /** A text and what is left of it after each dot. */
  function Suffixes(s: seq<byte>): set<seq<byte>>
    decreases |s|
  {
    if s == [] then {} else {s} + Suffixes(AfterDot(s))
  }

  /** The suffixes of every part but the last. */
  function EarlySuffixes(items: seq<Part>): set<seq<byte>>
  {
    if |items| <= 1 then {}
    else (match items[0] case Str(text) => Suffixes(text) case Run(_, _) => {}) + EarlySuffixes(items[1..])
  }

  function LastSuffixes(items: seq<Part>): set<seq<byte>>
  {
    if items == [] then {}
    else match items[|items| - 1] case Str(text) => Suffixes(text) case Run(_, _) => {}
  }

  /**
   What the entries of a name mean: the suffix of a last part stands for itself, and only the
   suffix of an earlier part stands for more. Reading an entry takes fewer pointers than segments.
   */
  ghost predicate Texts(table: Table, early: set<seq<byte>>)
  {
    forall e :: e in table ==> (e.segs == StrSegs(e.text) || e.text in early) && e.hops + 1 <= |e.segs|
  }

  lemma {:induction false} StrTexts(s: seq<byte>, last: bool, pos: nat, table: Table, limit: Option<nat>, tail: Name,
                                    x: Entry)
    requires Added(x, table, EmitStr(s, last, pos, table, limit, tail).table)
    ensures x.text in Suffixes(s)
    decreases |s|
  {
    hide Find, Raw, Store, EmitStr, StrSegs, FirstSeg;
    if s == [] || (last && Find(table, s).Some?) {
      StrStop(s, last, pos, table, limit, tail);
      assert false;
    } else {
      var stored := StrStored(s, pos, table, limit, tail);
      var r := StrStep(s, last, pos, table, limit, tail);
      StoreIs(table, Entry(s, pos, StrSegs(s) + tail, 0), limit);
      StrKeeps(AfterDot(s), last, pos + 1 + |FirstSeg(s)|, stored, limit, tail);
      AddedSplit(x, table, stored, r.table);
      if Added(x, stored, r.table) {
        StrTexts(AfterDot(s), last, pos + 1 + |FirstSeg(s)|, stored, limit, tail, x);
      }
    }
  }

  lemma {:induction false} StrHitText(s: seq<byte>, last: bool, pos: nat, table: Table, limit: Option<nat>, tail: Name)
    ensures var hit := EmitStr(s, last, pos, table, limit, tail).hit; hit.Some? ==> hit.value.text in Suffixes(s)
    decreases |s|
  {
    hide Find, Raw, Store, EmitStr, StrSegs, FirstSeg;
    if s == [] || (last && Find(table, s).Some?) {
      StrStop(s, last, pos, table, limit, tail);
      FindIs(table, s);
    } else {
      var r := StrStep(s, last, pos, table, limit, tail);
      StrHitText(AfterDot(s), last, pos + 1 + |FirstSeg(s)|, StrStored(s, pos, table, limit, tail), limit, tail);
    }
  }

  /** The pointer of a name answers for a suffix of its last part. */
  lemma {:induction false} ItemsHitText(items: seq<Part>, pos: nat, table: Table, limit: Option<nat>)
    requires StrItems(items)
    ensures var hit := EmitItems(items, pos, table, limit).hit; hit.Some? ==> hit.value.text in LastSuffixes(items)
  {
    hide EmitStr, EmitItems, StrSegs, ItemsSegs, Suffixes, Raw;
    var e, r := FirstPart(items, pos, table, limit);
    if |items| == 1 {
      StrHitText(items[0].text, true, pos, table, limit, ItemsSegs(items[1..]));
    } else {
      ItemsHitText(items[1..], pos + |e.bytes|, e.table, limit);
      assert items[1..][|items| - 2] == items[|items| - 1];
    }
  }

  /** An added entry stands for its text, or its text is a suffix of an earlier part. */
  lemma {:induction false} ItemsTexts(items: seq<Part>, pos: nat, table: Table, limit: Option<nat>, x: Entry)
    requires StrItems(items) && Added(x, table, EmitItems(items, pos, table, limit).table)
    ensures x.segs == StrSegs(x.text) || x.text in EarlySuffixes(items)
  {
    hide EmitStr, EmitItems, StrSegs, ItemsSegs, Suffixes, Raw;
    var tail := ItemsSegs(items[1..]);
    var e, r := FirstPart(items, pos, table, limit);
    StrKeeps(items[0].text, |items| == 1, pos, table, limit, tail);
    ItemsKeep(items[1..], pos + |e.bytes|, e.table, limit);
    AddedSplit(x, table, e.table, r.table);
    if Added(x, table, e.table) {
      StrTable(items[0].text, |items| == 1, pos, table, limit, tail, x);
      StrTexts(items[0].text, |items| == 1, pos, table, limit, tail, x);
      assert |items| == 1 ==> StrSegs(x.text) + [] == StrSegs(x.text);
    } else {
      ItemsTexts(items[1..], pos + |e.bytes|, e.table, limit, x);
    }
  }

  /**
   Hop bound: when no suffix of the last part is a suffix of some earlier part, reading the name
   takes at most one pointer for each of its segments, and no more parts than that (or one).
   */
  lemma HopBound(lab: Label, pos: nat, table: Table, limit: Option<nat>, early: set<seq<byte>>)
    requires StrItems(lab.items) && Texts(table, early)
    requires EarlySuffixes(lab.items) <= early && LastSuffixes(lab.items) !! early
    ensures var e := EmitLabel(lab, pos, table, limit);
      && Hops(e.hit) <= |Segs(lab)|
      && NameRuns(e) <= (if Segs(lab) == [] then 1 else |Segs(lab)|)
      && (e.hit.Some? ==> e.hit.value in table && e.hit.value.segs == StrSegs(e.hit.value.text))
      && Texts(e.table, early)
  {
    hide EmitItems, StrSegs, ItemsSegs, Suffixes, EarlySuffixes, LastSuffixes, Raw, Own, Sealed;
    var e, all := EmitItems(lab.items, pos, table, limit), ItemsSegs(lab.items);
    ItemsShape(lab.items, pos, table, limit);
    ItemsHitText(lab.items, pos, table, limit);
    ItemsKeep(lab.items, pos, table, limit);
    if e.hit.Some? {
      if e.hit.value !in table {
        ItemsHit(lab.items, pos, table, limit);
        AddedHit(lab.items, pos, table, limit);
        ItemsTexts(lab.items, pos, table, limit, e.hit.value);
        assert false;
      }
    }
    var sealed := EmitLabel(lab, pos, table, limit).table;
    forall x | x in sealed
      ensures (x.segs == StrSegs(x.text) || x.text in early) && x.hops + 1 <= |x.segs|
    {
      var i :| 0 <= i < |sealed| && sealed[i] == x;
      if i >= |table| {
        assert e.table[|table|..][i - |table|] == e.table[i];
        ItemsTexts(lab.items, pos, table, limit, e.table[i]);
        ItemsTable(lab.items, pos, table, limit, e.table[i]);
        OwnLong(e.table[i], pos, e.full, all);
        SealedSame(e.table[i], pos, e.full, e.hit);
      } else {
        assert table[i] == e.table[i];
      }
    }
  }

  lemma OwnLong(x: Entry, p: nat, full: Name, all: Name)
    requires Own(x, p, full, all)
    ensures |x.segs| >= |all| - |full| + 1
  {
    hide StrSegs, Raw;
  }

  /** An entry found is one of the table at that time. */
  lemma {:induction false} AddedHit(items: seq<Part>, pos: nat, table: Table, limit: Option<nat>)
    requires StrItems(items)
    ensures var e := EmitItems(items, pos, table, limit);
      e.hit.Some? && e.hit.value !in table ==> Added(e.hit.value, table, e.table)
  {
    hide EmitStr, EmitItems, StrSegs, ItemsSegs, Raw;
    var e, r := FirstPart(items, pos, table, limit);
    ItemsKeep(items, pos, table, limit);
    if |items| == 1 {
      StrHit(items[0].text, true, pos, table, limit, ItemsSegs(items[1..]), table);
    } else {
      AddedHit(items[1..], pos + |e.bytes|, e.table, limit);
      ItemsKeep(items[1..], pos + |e.bytes|, e.table, limit);
      if r.hit.Some? && r.hit.value !in table {
        assert r.hit.value in r.table;
        AddedAny(r.hit.value, table, r.table);
      }
    }
  }

  // ---------------------------------------------------------------- messages without clashes

  /**
   Names of at most four segments, each of 1 to 63 octets; `early` holds the suffixes of all the
   parts that are not the last of their name, and none of them is a suffix of a last part.
   */
  ghost predicate Fit(lab: Label, early: set<seq<byte>>)
  {
    RunItems(lab.items) ||
    (&& StrItems(lab.items) && WireSegs(Segs(lab)) && |Segs(lab)| <= BUDGET
     && EarlySuffixes(lab.items) <= early && LastSuffixes(lab.items) !! early)
  }

  lemma FitIsProper(lab: Label, early: set<seq<byte>>)
    requires Fit(lab, early)
    ensures Proper(lab)
  {
    hide RunItems, StrItems, EarlySuffixes, LastSuffixes, WireSegs;
  }

  ghost predicate FitRecord(r: Record<Label>, early: set<seq<byte>>)
  {
    match r
    case RecPTR(name) => Fit(name, early)
    case RecSRV(_, _, _, target) => Fit(target, early)
    case _ => true
  }

  ghost predicate FitAnswer(a: Answer<Label>, early: set<seq<byte>>)
  {
    Fit(a.name, early) && FitRecord(a.record, early)
  }

  ghost predicate FitNames(m: Message<Label>, early: set<seq<byte>>)
  {
    && (forall q :: q in m.queries ==> Fit(q.name, early))
    && (m.Response? ==> forall a :: a in m.answers ==> FitAnswer(a, early))
  }

  /** What the table keeps while fit names are written within pointer reach. */
  ghost predicate Kept(table: Table, pos: nat, early: set<seq<byte>>)
  {
    Texts(table, early) && Below(table, pos)
  }

  lemma KeptMore(table: Table, p: nat, q: nat, early: set<seq<byte>>)
    requires Kept(table, p, early) && p <= q
    ensures Kept(table, q, early)
  {
  }

  lemma FitLabel(lab: Label, p: nat, table: Table, limit: Option<nat>, early: set<seq<byte>>)
    requires Fit(lab, early) && Kept(table, p, early)
    ensures var e := EmitLabel(lab, p, table, limit);
      && Kept(e.table, p + |e.bytes|, early)
      && (p + |e.bytes| <= REACH ==> GoodLabel(lab, p, table, limit))
  {
    hide EmitItems, StrSegs, ItemsSegs, Raw, Texts, Below, EarlySuffixes, LastSuffixes, RunItems;
    LabelBelow(lab, p, table, limit);
    if RunItems(lab.items) {
      RunsShape(lab.items, p, table, limit);
      assert Seal(table, |table|, None) == table;
    } else {
      HopBound(lab, p, table, limit, early);
    }
  }

  lemma FitOneRecord(r: Record<Label>, p: nat, table: Table, limit: Option<nat>, early: set<seq<byte>>)
    requires FitRecord(r, early) && Kept(table, p, early)
    ensures var e := EmitRecord(r, p, table, limit);
      && Kept(e.table, p + |e.bytes|, early)
      && (p + |e.bytes| <= REACH ==> GoodRecord(r, p, table, limit))
  {
    hide EmitLabel, Fit, GoodLabel, Kept;
    match r
    case RecPTR(name) =>
      KeptMore(table, p, p + 2, early);
      FitLabel(name, p + 2, table, limit, early);
    case RecSRV(_, _, _, target) =>
      KeptMore(table, p, p + 8, early);
      FitLabel(target, p + 8, table, limit, early);
    case _ =>
      KeptMore(table, p, p + |EmitRecord(r, p, table, limit).bytes|, early);
  }

  lemma FitOneAnswer(a: Answer<Label>, p: nat, table: Table, limit: Option<nat>, early: set<seq<byte>>)
    requires FitAnswer(a, early) && Kept(table, p, early)
    ensures var e := EmitAnswer(a, p, table, limit);
      && Kept(e.table, p + |e.bytes|, early)
      && (p + |e.bytes| <= REACH ==> GoodAnswer(a, p, table, limit))
  {
    hide EmitLabel, Fit, GoodLabel, Kept, EmitRecord, FitRecord, GoodRecord;
    FitLabel(a.name, p, table, limit, early);
    var e := EmitLabel(a.name, p, table, limit);
    KeptMore(e.table, p + |e.bytes|, p + |e.bytes| + 8, early);
    FitOneRecord(a.record, p + |e.bytes| + 8, e.table, limit, early);
  }

  lemma {:induction false} FitQueries(qs: seq<Query<Label>>, p: nat, table: Table, limit: Option<nat>,
                                      early: set<seq<byte>>)
    requires (forall q :: q in qs ==> Fit(q.name, early)) && Kept(table, p, early)
    ensures var e := EmitQueries(qs, p, table, limit);
      && Kept(e.table, p + |e.bytes|, early)
      && (p + |e.bytes| <= REACH ==> GoodQueries(qs, p, table, limit))
  {
    hide EmitLabel, Fit, GoodLabel, Kept;
    if qs != [] {
      FitLabel(qs[0].name, p, table, limit, early);
      var n, e := EmitLabel(qs[0].name, p, table, limit), EmitQuery(qs[0], p, table, limit);
      KeptMore(e.table, p + |n.bytes|, p + |e.bytes|, early);
      FitQueries(qs[1..], p + |e.bytes|, e.table, limit, early);
    }
  }

  lemma {:induction false} FitAnswers(xs: seq<Answer<Label>>, p: nat, table: Table, limit: Option<nat>,
                                      early: set<seq<byte>>)
    requires (forall a :: a in xs ==> FitAnswer(a, early)) && Kept(table, p, early)
    ensures var e := EmitAnswers(xs, p, table, limit);
      && Kept(e.table, p + |e.bytes|, early)
      && (p + |e.bytes| <= REACH ==> GoodAnswers(xs, p, table, limit))
  {
    hide EmitAnswer, FitAnswer, GoodAnswer, Kept;
    if xs != [] {
      FitOneAnswer(xs[0], p, table, limit, early);
      var e := EmitAnswer(xs[0], p, table, limit);
      FitAnswers(xs[1..], p + |e.bytes|, e.table, limit, early);
    }
  }

  /**
   Names of up to four segments without clashes, in a message within pointer reach: the message
   comes back, whatever the size of the compression table.
   */
  lemma FitMessageReturns(b: seq<byte>, m: Message<Label>, limit: Option<nat>, early: set<seq<byte>>)
    requires GoodFields(m) && FitNames(m, early) && |Serialize(m, limit)| <= REACH
    requires At(b, 0, Serialize(m, limit))
    ensures GoodNames(m, limit)
    ensures Back(ParseMessage(b, GROWING), m)
    ensures ParseMessage(b, GROWING).value.rest == b[|Serialize(m, limit)|..]
  {
    hide EmitQueries, EmitAnswers, GoodQueries, GoodAnswers, ParseMessage, Fit, FitAnswer;
    FitQueries(m.queries, 12, [], limit, early);
    if m.Response? {
      var q := EmitQueries(m.queries, 12, [], limit);
      FitAnswers(m.answers, 12 + |q.bytes|, q.table, limit, early);
    }
    MessageTrip.MessageTrip(b, m, limit);
  }
}

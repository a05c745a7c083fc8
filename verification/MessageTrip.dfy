/** Writing a message and reading it back: exactly when it works. */
module MessageTrip {
  import opened Bytes
  import opened Names
  import opened Writers
  import opened LabelParser
  import opened LabelWriter
  import opened NameShape
  import opened NameTrip
  import opened Messages

  // ---------------------------------------------------------------- the condition

  predicate GoodQueries(qs: seq<Query<Label>>, pos: nat, table: Table, limit: Option<nat>)
  {
    qs == [] ||
    (GoodLabel(qs[0].name, pos, table, limit) &&
     var e := EmitQuery(qs[0], pos, table, limit);
     GoodQueries(qs[1..], pos + |e.bytes|, e.table, limit))
  }

  predicate GoodRecord(r: Record<Label>, pos: nat, table: Table, limit: Option<nat>)
  {
    match r
    case RecPTR(name) => GoodLabel(name, pos + 2, table, limit)
    case RecSRV(_, _, _, target) => GoodLabel(target, pos + 8, table, limit)
    case _ => true
  }

  predicate GoodAnswer(a: Answer<Label>, pos: nat, table: Table, limit: Option<nat>)
  {
    GoodLabel(a.name, pos, table, limit) &&
    var e := EmitLabel(a.name, pos, table, limit);
    GoodRecord(a.record, pos + |e.bytes| + 8, e.table, limit)
  }

  predicate GoodAnswers(xs: seq<Answer<Label>>, pos: nat, table: Table, limit: Option<nat>)
  {
    xs == [] ||
    (GoodAnswer(xs[0], pos, table, limit) &&
     var e := EmitAnswer(xs[0], pos, table, limit);
     GoodAnswers(xs[1..], pos + |e.bytes|, e.table, limit))
  }

  /** Every name of the message is fit for the trip when its turn comes. */
  predicate GoodNames(m: Message<Label>, limit: Option<nat>)
  {
    GoodQueries(m.queries, 12, [], limit) &&
    (m.Response? ==>
       var q := EmitQueries(m.queries, 12, [], limit);
       GoodAnswers(m.answers, 12 + |q.bytes|, q.table, limit))
  }

  // ---------------------------------------------------------------- pointers in reach

  /** Entries stand before the current offset. */
  predicate Below(table: Table, pos: nat)
  {
    forall e :: e in table ==> e.off < pos
  }

  const REACH: nat := 0x4000

  lemma LabelBelow(lab: Label, p: nat, table: Table, limit: Option<nat>)
    requires Built(lab) && Below(table, p)
    ensures var e := EmitLabel(lab, p, table, limit);
      && Below(e.table, p + |e.bytes|)
      && (e.hit.Some? ==> e.hit.value.off < p + |e.bytes|)
  {
    hide EmitItems, StrSegs, ItemsSegs, Raw, Own, RunItems;
    var e := EmitItems(lab.items, p, table, limit);
    var sealed := EmitLabel(lab, p, table, limit);
    if RunItems(lab.items) {
      RunsShape(lab.items, p, table, limit);
      assert Seal(table, |table|, None) == table;
    } else {
      ItemsKeep(lab.items, p, table, limit);
      ItemsShape(lab.items, p, table, limit);
      forall x | x in sealed.table
        ensures x.off < p + |e.bytes|
      {
        var i :| 0 <= i < |sealed.table| && sealed.table[i] == x;
        if i >= |table| {
          assert e.table[|table|..][i - |table|] == e.table[i];
          ItemsTable(lab.items, p, table, limit, e.table[i]);
          OwnBelow(e.table[i], p, e.full, ItemsSegs(lab.items));
        } else {
          assert table[i] == e.table[i];
        }
      }
      ItemsHit(lab.items, p, table, limit);
      if e.hit.Some? && e.hit.value !in table {
        OwnBelow(e.hit.value, p, e.full, ItemsSegs(lab.items));
      }
    }
  }

  lemma OwnBelow(x: Entry, p: nat, full: Name, all: Name)
    requires Own(x, p, full, all)
    ensures x.off < p + |Raw(full)|
  {
    hide StrSegs, Raw;
    var k: nat :| OwnAt(x, k, p, full, all);
    assert full == full[..k] + full[k..];
    RawConcat(full[..k], full[k..]);
    RawCons(full[k], full[k + 1..]);
    assert full[k..] == [full[k]] + full[k + 1..];
  }

  // ---------------------------------------------------------------- fields

  lemma ReadAt16(b: seq<byte>, p: nat, n: u16)
    requires At(b, p, Be16(n))
    ensures ReadU16(b[p..]) == Some(Parsed(n, b[p + 2..]))
  {
    AtDrop(b, p, Be16(n));
    ReadBackU16(n, b[p..]);
  }

  lemma ReadAt32(b: seq<byte>, p: nat, n: u32)
    requires At(b, p, Be32(n))
    ensures ReadU32(b[p..]) == Some(Parsed(n, b[p + 4..]))
  {
    AtDrop(b, p, Be32(n));
    ReadBackU32(n, b[p..]);
  }

  // ---------------------------------------------------------------- questions

  ghost predicate QueryBack(r: Option<Parsed<Query<Label>>>, q: Query<Label>)
  {
    r.Some? && ViewQuery(r.value.value) == ViewQuery(q)
  }

  lemma QueryTrip(b: seq<byte>, q: Query<Label>, p: nat, table: Table, limit: Option<nat>)
    requires GoodQueryFields(q) && TableOk(b, table) && At(b, p, EmitQuery(q, p, table, limit).bytes)
    ensures var e, r := EmitQuery(q, p, table, limit), ParseQuery(b[p..], b, None);
      if GoodLabel(q.name, p, table, limit) then
        TableOk(b, e.table) && QueryBack(r, q) && r.value.rest == b[p + |e.bytes|..]
      else
        Below(table, p) && p + |e.bytes| <= REACH ==> !QueryBack(r, q)
  {
    hide EmitLabel, ParseLabel, GoodLabel, TableOk, Built, ItemsSegs, TypeOf, TypeCode, ClassOf, ClassCode, ReadU16,
      Be16, RunItems;
    var e := EmitLabel(q.name, p, table, limit);
    var t, c := Be16(TypeCode(q.qtype)), Be16(ClassCode(q.qclass));
    AtSplit(b, p, e.bytes, t + c);
    if GoodLabel(q.name, p, table, limit) {
      LabelReturns(b, q.name, p, table, limit);
      var m := p + |e.bytes|;
      AtSplit(b, m, t, c);
      ReadAt16(b, m, TypeCode(q.qtype));
      ReadAt16(b, m + 2, ClassCode(q.qclass));
    } else if Below(table, p) && p + |e.bytes| <= REACH {
      LabelBelow(q.name, p, table, limit);
      LabelTrip(b, q.name, p, table, limit);
    }
  }

  lemma QueryBelow(q: Query<Label>, p: nat, table: Table, limit: Option<nat>)
    requires GoodQueryFields(q) && Below(table, p)
    ensures var e := EmitQuery(q, p, table, limit); Below(e.table, p + |e.bytes|)
  {
    hide EmitLabel, Built;
    LabelBelow(q.name, p, table, limit);
  }

  ghost predicate QueriesBack(r: Option<Parsed<seq<Query<Label>>>>, qs: seq<Query<Label>>)
  {
    r.Some? && ViewQueries(r.value.value) == ViewQueries(qs)
  }

  lemma QueriesNone(b: seq<byte>, p: nat, table: Table, limit: Option<nat>)
    requires p <= |b|
    ensures var r := ParseQueries(0, b[p..], b, None, None);
      && EmitQueries([], p, table, limit) == Written([], table)
      && GoodQueries([], p, table, limit) && QueriesBack(r, []) && r.value.rest == b[p..]
  {
  }

  /** One turn of the loops over qs, for the writer and for the condition. */
  lemma QueriesStep(qs: seq<Query<Label>>, p: nat, table: Table, limit: Option<nat>)
    requires qs != [] && GoodQueriesFields(qs)
    ensures GoodQueryFields(qs[0]) && GoodQueriesFields(qs[1..])
    ensures var e := EmitQuery(qs[0], p, table, limit);
      var more := EmitQueries(qs[1..], p + |e.bytes|, e.table, limit);
      && EmitQueries(qs, p, table, limit) == Written(e.bytes + more.bytes, more.table)
      && GoodQueries(qs, p, table, limit) ==
         (GoodLabel(qs[0].name, p, table, limit) && GoodQueries(qs[1..], p + |e.bytes|, e.table, limit))
  {
    hide EmitQuery, GoodQueryFields, GoodLabel;
  }

  /** One turn of the parser's loop, against what was written. */
  lemma QueriesRead(n: nat, input: seq<byte>, ctx: seq<byte>, qs: seq<Query<Label>>)
    requires n == |qs| > 0
    ensures var r, rs := ParseQuery(input, ctx, None), ParseQueries(n, input, ctx, None, None);
      && (!QueryBack(r, qs[0]) ==> !QueriesBack(rs, qs))
      && (QueryBack(r, qs[0]) ==>
            var more := ParseQueries(n - 1, r.value.rest, ctx, None, None);
            && (QueriesBack(rs, qs) <==> QueriesBack(more, qs[1..]))
            && (QueriesBack(rs, qs) ==> rs.value.rest == more.value.rest))
  {
    hide ParseQuery, ViewQuery, ViewQueries;
    var r := ParseQuery(input, ctx, None);
    if r.Some? {
      var more := ParseQueries(n - 1, r.value.rest, ctx, None, None);
      if more.Some? {
        QueriesHead(r.value.value, more.value.value, qs[0], qs);
      }
    }
  }

  lemma {:induction false} QueriesTrip(b: seq<byte>, qs: seq<Query<Label>>, p: nat, table: Table, limit: Option<nat>)
    requires GoodQueriesFields(qs) && TableOk(b, table) && At(b, p, EmitQueries(qs, p, table, limit).bytes)
    ensures var e, r := EmitQueries(qs, p, table, limit), ParseQueries(|qs|, b[p..], b, None, None);
      if GoodQueries(qs, p, table, limit) then
        TableOk(b, e.table) && QueriesBack(r, qs) && r.value.rest == b[p + |e.bytes|..]
      else
        Below(table, p) && p + |e.bytes| <= REACH ==> !QueriesBack(r, qs)
  {
    hide ParseQuery, EmitQuery, GoodLabel, TableOk, Below, ViewQuery, GoodQueryFields, ParseQueries, EmitQueries,
      GoodQueries, ViewQueries, GoodQueriesFields, QueryBack, QueriesBack;
    if qs == [] {
      QueriesNone(b, p, table, limit);
    } else {
      var q, e := qs[0], EmitQuery(qs[0], p, table, limit);
      var more := EmitQueries(qs[1..], p + |e.bytes|, e.table, limit);
      QueriesStep(qs, p, table, limit);
      QueriesRead(|qs|, b[p..], b, qs);
      AtSplit(b, p, e.bytes, more.bytes);
      QueryTrip(b, q, p, table, limit);
      if GoodLabel(q.name, p, table, limit) {
        QueriesTrip(b, qs[1..], p + |e.bytes|, e.table, limit);
        if Below(table, p) {
          QueryBelow(q, p, table, limit);
        }
      }
    }
  }

  lemma QueriesHead(x: Query<Label>, xs: seq<Query<Label>>, q: Query<Label>, qs: seq<Query<Label>>)
    requires qs != [] && qs[0] == q
    ensures ViewQueries([x] + xs) == ViewQueries(qs) <==>
            ViewQuery(x) == ViewQuery(q) && ViewQueries(xs) == ViewQueries(qs[1..])
  {
    hide ViewQuery;
    assert ([x] + xs)[1..] == xs;
    var l, r := ViewQueries([x] + xs), ViewQueries(qs);
    assert l == [ViewQuery(x)] + ViewQueries(xs) && r == [ViewQuery(q)] + ViewQueries(qs[1..]);
    assert l[1..] == ViewQueries(xs) && r[1..] == ViewQueries(qs[1..]);
  }

  // ---------------------------------------------------------------- records

  ghost predicate RecordBack(r: Option<Parsed<Record<Label>>>, x: Record<Label>)
  {
    r.Some? && ViewRecord(r.value.value) == ViewRecord(x)
  }

  lemma CountedBack(b: seq<byte>, p: nat, data: seq<byte>)
    requires |data| < 0x1_0000 && At(b, p, Be16(|data|) + data)
    ensures ReadCounted(b[p..]) == Some(Parsed(data, b[p + 2 + |data|..]))
  {
    hide Be16, ReadU16;
    AtSplit(b, p, Be16(|data|), data);
    ReadAt16(b, p, |data|);
    AtDrop(b, p + 2, data);
  }

  lemma PtrTrip(b: seq<byte>, name: Label, p: nat, table: Table, limit: Option<nat>)
    requires Built(name) && TableOk(b, table) && At(b, p, EmitRecord(RecPTR(name), p, table, limit).bytes)
    ensures var e, r := EmitRecord(RecPTR(name), p, table, limit), ParsePTR(b[p..], b, None);
      if GoodLabel(name, p + 2, table, limit) then
        TableOk(b, e.table) && RecordBack(r, RecPTR(name)) && r.value.rest == b[p + |e.bytes|..]
      else
        Below(table, p) && p + |e.bytes| <= REACH ==> !RecordBack(r, RecPTR(name))
  {
    hide EmitLabel, ParseLabel, GoodLabel, TableOk, Built, ItemsSegs, ReadU16, Be16, RunItems;
    var e := EmitLabel(name, p + 2, table, limit);
    AtSplit(b, p, Be16(|e.bytes|), e.bytes);
    assert b[p..][2..] == b[p + 2..];
    assert ReadU16(b[p..]).Some? && ReadU16(b[p..]).value.rest == b[p + 2..];
    if GoodLabel(name, p + 2, table, limit) {
      LabelReturns(b, name, p + 2, table, limit);
    } else if Below(table, p) && p + 2 + |e.bytes| <= REACH {
      LabelBelow(name, p + 2, table, limit);
      LabelTrip(b, name, p + 2, table, limit);
    }
  }

  lemma SrvTrip(b: seq<byte>, x: Record<Label>, p: nat, table: Table, limit: Option<nat>)
    requires x.RecSRV? && Built(x.target) && TableOk(b, table) && At(b, p, EmitRecord(x, p, table, limit).bytes)
    ensures var e, r := EmitRecord(x, p, table, limit), ParseSRV(b[p..], b, None);
      if GoodLabel(x.target, p + 8, table, limit) then
        TableOk(b, e.table) && RecordBack(r, x) && r.value.rest == b[p + |e.bytes|..]
      else
        Below(table, p) && p + |e.bytes| <= REACH ==> !RecordBack(r, x)
  {
    hide EmitLabel, ParseLabel, GoodLabel, TableOk, Built, ItemsSegs, ReadU16, Be16, RunItems;
    var e := EmitLabel(x.target, p + 8, table, limit);
    var head := SrvHead(x.priority, x.weight, x.port);
    AtSplit(b, p, Be16(6 + |e.bytes|), head + e.bytes);
    AtSplit(b, p + 2, head, e.bytes);
    AtSplit(b, p + 2, Be16(x.priority) + Be16(x.weight), Be16(x.port));
    AtSplit(b, p + 2, Be16(x.priority), Be16(x.weight));
    assert b[p..][2..] == b[p + 2..];
    assert ReadU16(b[p..]).Some? && ReadU16(b[p..]).value.rest == b[p + 2..];
    ReadAt16(b, p + 2, x.priority);
    ReadAt16(b, p + 4, x.weight);
    ReadAt16(b, p + 6, x.port);
    if GoodLabel(x.target, p + 8, table, limit) {
      LabelReturns(b, x.target, p + 8, table, limit);
    } else if Below(table, p) && p + 8 + |e.bytes| <= REACH {
      LabelBelow(x.target, p + 8, table, limit);
      LabelTrip(b, x.target, p + 8, table, limit);
    }
  }

  lemma RecordTrip(b: seq<byte>, t: QType, x: Record<Label>, p: nat, table: Table, limit: Option<nat>)
    requires GoodRecordFields(t, x) && TableOk(b, table) && At(b, p, EmitRecord(x, p, table, limit).bytes)
    ensures var e, r := EmitRecord(x, p, table, limit), ParseRecord(b[p..], b, t, None);
      if GoodRecord(x, p, table, limit) then
        TableOk(b, e.table) && RecordBack(r, x) && r.value.rest == b[p + |e.bytes|..]
      else
        Below(table, p) && p + |e.bytes| <= REACH ==> !RecordBack(r, x)
  {
    hide EmitLabel, GoodLabel, TableOk, Built, ItemsSegs, ReadCounted, Be16, ParsePTR, ParseSRV, Utf8;
    match x
    case RecA(v4) => CountedBack(b, p, v4);
    case RecAAAA(v6) => CountedBack(b, p, v6);
    case RecPTR(name) => PtrTrip(b, name, p, table, limit);
    case RecTXT(text) => CountedBack(b, p, text);
    case RecSRV(_, _, _, _) => SrvTrip(b, x, p, table, limit);
  }

  lemma RecordBelow(t: QType, x: Record<Label>, p: nat, table: Table, limit: Option<nat>)
    requires GoodRecordFields(t, x) && Below(table, p)
    ensures var e := EmitRecord(x, p, table, limit); Below(e.table, p + |e.bytes|)
  {
    hide EmitLabel, Built;
    match x
    case RecPTR(name) => LabelBelow(name, p + 2, table, limit);
    case RecSRV(_, _, _, target) => LabelBelow(target, p + 8, table, limit);
    case _ =>
  }

  // ---------------------------------------------------------------- answers

  ghost predicate AnswerBack(r: Option<Parsed<Answer<Label>>>, a: Answer<Label>)
  {
    r.Some? && ViewAnswer(r.value.value) == ViewAnswer(a)
  }

  lemma HeadBack(b: seq<byte>, a: Answer<Label>, m: nat)
    requires At(b, m, AnswerHead(a))
    ensures ReadU16(b[m..]) == Some(Parsed(TypeCode(a.atype), b[m + 2..]))
    ensures ReadU16(b[m + 2..]) == Some(Parsed(ClassCode(a.aclass), b[m + 4..]))
    ensures ReadU32(b[m + 4..]) == Some(Parsed(a.ttl, b[m + 8..]))
  {
    hide Be16, Be32, ReadU16, ReadU32, TypeCode, ClassCode;
    var t, c, l := Be16(TypeCode(a.atype)), Be16(ClassCode(a.aclass)), Be32(a.ttl);
    AtSplit(b, m, t + c, l);
    AtSplit(b, m, t, c);
    ReadAt16(b, m, TypeCode(a.atype));
    ReadAt16(b, m + 2, ClassCode(a.aclass));
    ReadAt32(b, m + 4, a.ttl);
  }

  lemma RecordType(t: QType, x: Record<Label>)
    requires GoodRecordFields(t, x)
    ensures TypeOf(TypeCode(t)) == t
  {
  }

  lemma AnswerTrip(b: seq<byte>, a: Answer<Label>, p: nat, table: Table, limit: Option<nat>)
    requires GoodAnswerFields(a) && TableOk(b, table) && At(b, p, EmitAnswer(a, p, table, limit).bytes)
    ensures var e, r := EmitAnswer(a, p, table, limit), ParseAnswer(b[p..], b, None);
      if GoodAnswer(a, p, table, limit) then
        TableOk(b, e.table) && AnswerBack(r, a) && r.value.rest == b[p + |e.bytes|..]
      else
        Below(table, p) && p + |e.bytes| <= REACH ==> !AnswerBack(r, a)
  {
    hide EmitLabel, ParseLabel, GoodLabel, TableOk, Below, Built, ItemsSegs, TypeOf, TypeCode, ClassOf, ClassCode,
      ReadU16, ReadU32, AnswerHead, EmitRecord, ParseRecord, GoodRecord, ViewRecord, GoodRecordFields, RunItems;
    var e := EmitLabel(a.name, p, table, limit);
    var m := p + |e.bytes|;
    var x := EmitRecord(a.record, m + 8, e.table, limit);
    AtSplit(b, p, e.bytes, AnswerHead(a) + x.bytes);
    AtSplit(b, m, AnswerHead(a), x.bytes);
    if GoodLabel(a.name, p, table, limit) {
      LabelReturns(b, a.name, p, table, limit);
      HeadBack(b, a, m);
      RecordType(a.atype, a.record);
      RecordTrip(b, a.atype, a.record, m + 8, e.table, limit);
      if Below(table, p) {
        LabelBelow(a.name, p, table, limit);
        BelowMore(e.table, m, m + 8);
      }
    } else if Below(table, p) && m <= REACH {
      LabelBelow(a.name, p, table, limit);
      LabelTrip(b, a.name, p, table, limit);
    }
  }

  lemma BelowMore(table: Table, p: nat, q: nat)
    requires Below(table, p) && p <= q
    ensures Below(table, q)
  {
  }

  lemma AnswerBelow(a: Answer<Label>, p: nat, table: Table, limit: Option<nat>)
    requires GoodAnswerFields(a) && Below(table, p)
    ensures var e := EmitAnswer(a, p, table, limit); Below(e.table, p + |e.bytes|)
  {
    hide EmitLabel, Built, EmitRecord, GoodRecordFields, Below;
    LabelBelow(a.name, p, table, limit);
    var e := EmitLabel(a.name, p, table, limit);
    BelowMore(e.table, p + |e.bytes|, p + |e.bytes| + 8);
    RecordBelow(a.atype, a.record, p + |e.bytes| + 8, e.table, limit);
  }

  ghost predicate AnswersBack(r: Option<Parsed<seq<Answer<Label>>>>, xs: seq<Answer<Label>>)
  {
    r.Some? && ViewAnswers(r.value.value) == ViewAnswers(xs)
  }

  lemma AnswersNone(b: seq<byte>, p: nat, table: Table, limit: Option<nat>)
    requires p <= |b|
    ensures var r := ParseAnswers(0, b[p..], b, None, None);
      && EmitAnswers([], p, table, limit) == Written([], table)
      && GoodAnswers([], p, table, limit) && AnswersBack(r, []) && r.value.rest == b[p..]
  {
  }

  /** One turn of the loops over xs, for the writer and for the condition. */
  lemma AnswersStep(xs: seq<Answer<Label>>, p: nat, table: Table, limit: Option<nat>)
    requires xs != [] && GoodAnswersFields(xs)
    ensures GoodAnswerFields(xs[0]) && GoodAnswersFields(xs[1..])
    ensures var e := EmitAnswer(xs[0], p, table, limit);
      var more := EmitAnswers(xs[1..], p + |e.bytes|, e.table, limit);
      && EmitAnswers(xs, p, table, limit) == Written(e.bytes + more.bytes, more.table)
      && GoodAnswers(xs, p, table, limit) ==
         (GoodAnswer(xs[0], p, table, limit) && GoodAnswers(xs[1..], p + |e.bytes|, e.table, limit))
  {
    hide EmitAnswer, GoodAnswerFields, GoodAnswer;
  }

  /** One turn of the parser's loop, against what was written. */
  lemma AnswersRead(n: nat, input: seq<byte>, ctx: seq<byte>, xs: seq<Answer<Label>>)
    requires n == |xs| > 0
    ensures var r, rs := ParseAnswer(input, ctx, None), ParseAnswers(n, input, ctx, None, None);
      && (!AnswerBack(r, xs[0]) ==> !AnswersBack(rs, xs))
      && (AnswerBack(r, xs[0]) ==>
            var more := ParseAnswers(n - 1, r.value.rest, ctx, None, None);
            && (AnswersBack(rs, xs) <==> AnswersBack(more, xs[1..]))
            && (AnswersBack(rs, xs) ==> rs.value.rest == more.value.rest))
  {
    hide ParseAnswer, ViewAnswer, ViewAnswers;
    var r := ParseAnswer(input, ctx, None);
    if r.Some? {
      var more := ParseAnswers(n - 1, r.value.rest, ctx, None, None);
      if more.Some? {
        AnswersHead(r.value.value, more.value.value, xs[0], xs);
      }
    }
  }

  lemma {:induction false} AnswersTrip(b: seq<byte>, xs: seq<Answer<Label>>, p: nat, table: Table, limit: Option<nat>)
    requires GoodAnswersFields(xs) && TableOk(b, table) && At(b, p, EmitAnswers(xs, p, table, limit).bytes)
    ensures var e, r := EmitAnswers(xs, p, table, limit), ParseAnswers(|xs|, b[p..], b, None, None);
      if GoodAnswers(xs, p, table, limit) then
        TableOk(b, e.table) && AnswersBack(r, xs) && r.value.rest == b[p + |e.bytes|..]
      else
        Below(table, p) && p + |e.bytes| <= REACH ==> !AnswersBack(r, xs)
  {
    hide ParseAnswer, EmitAnswer, GoodAnswer, TableOk, Below, ViewAnswer, GoodAnswerFields, ParseAnswers, EmitAnswers,
      GoodAnswers, ViewAnswers, GoodAnswersFields, AnswerBack, AnswersBack;
    if xs == [] {
      AnswersNone(b, p, table, limit);
    } else {
      var a, e := xs[0], EmitAnswer(xs[0], p, table, limit);
      var more := EmitAnswers(xs[1..], p + |e.bytes|, e.table, limit);
      AnswersStep(xs, p, table, limit);
      AnswersRead(|xs|, b[p..], b, xs);
      AtSplit(b, p, e.bytes, more.bytes);
      AnswerTrip(b, a, p, table, limit);
      if GoodAnswer(a, p, table, limit) {
        AnswersTrip(b, xs[1..], p + |e.bytes|, e.table, limit);
        if Below(table, p) {
          AnswerBelow(a, p, table, limit);
        }
      }
    }
  }

  lemma AnswersHead(y: Answer<Label>, ys: seq<Answer<Label>>, a: Answer<Label>, xs: seq<Answer<Label>>)
    requires xs != [] && xs[0] == a
    ensures ViewAnswers([y] + ys) == ViewAnswers(xs) <==>
            ViewAnswer(y) == ViewAnswer(a) && ViewAnswers(ys) == ViewAnswers(xs[1..])
  {
    hide ViewAnswer;
    assert ([y] + ys)[1..] == ys;
    var l, r := ViewAnswers([y] + ys), ViewAnswers(xs);
    assert l == [ViewAnswer(y)] + ViewAnswers(ys) && r == [ViewAnswer(a)] + ViewAnswers(xs[1..]);
    assert l[1..] == ViewAnswers(ys) && r[1..] == ViewAnswers(xs[1..]);
  }

  // ---------------------------------------------------------------- messages

  lemma HeaderBack(b: seq<byte>, m: Message<Label>)
    requires GoodFields(m) && At(b, 0, Header(m))
    ensures ParseHead(b) ==
            Some(Parsed(Head(m.id, m.flags, |m.queries|, if m.Response? then |m.answers| else 0), b[12..]))
    ensures ReadU16(b[2..]).Some? && ReadU16(b[2..]).value.value == m.flags
  {
    hide Be16, ReadU16, GoodQueryFields, GoodAnswerFields;
    var an := if m.Response? then |m.answers| else 0;
    var w1, w2, w3, w4, z := Be16(m.id), Be16(m.flags), Be16(|m.queries|), Be16(an), Be16(0);
    AtSplit(b, 0, w1 + w2 + w3 + w4 + z, z);
    AtSplit(b, 0, w1 + w2 + w3 + w4, z);
    AtSplit(b, 0, w1 + w2 + w3, w4);
    AtSplit(b, 0, w1 + w2, w3);
    AtSplit(b, 0, w1, w2);
    ReadAt16(b, 0, m.id);
    assert b[0..] == b;
    ReadAt16(b, 2, m.flags);
    ReadAt16(b, 4, |m.queries|);
    ReadAt16(b, 6, an);
  }

  /** The message read from a packet means what `m` means. */
  ghost predicate Back(r: Option<Parsed<Message<Label>>>, m: Message<Label>)
  {
    r.Some? && View(r.value.value) == View(m)
  }

  /**
   Round trip with compression, exactly: a message with proper fields comes back from any packet
   that starts with its octets, leaving just what followed them, when all its names are fit for the
   trip; and within pointer reach it comes back only then.
   */
  lemma MessageTrip(b: seq<byte>, m: Message<Label>, limit: Option<nat>)
    requires GoodFields(m) && At(b, 0, Serialize(m, limit))
    ensures GoodNames(m, limit) ==>
              Back(ParseMessage(b, GROWING), m) && ParseMessage(b, GROWING).value.rest == b[|Serialize(m, limit)|..]
    ensures |Serialize(m, limit)| <= REACH ==> (GoodNames(m, limit) <==> Back(ParseMessage(b, GROWING), m))
  {
    hide ParseQueries, ParseAnswers, EmitQueries, EmitAnswers, GoodQueries, GoodAnswers, ViewQueries, ViewAnswers,
      Header, ParseHead, ReadU16, GoodQueriesFields, GoodAnswersFields, IsRequest;
    var q := EmitQueries(m.queries, 12, [], limit);
    var a := if m.Response? then EmitAnswers(m.answers, 12 + |q.bytes|, q.table, limit) else Written([], q.table);
    assert q.bytes + [] == q.bytes;
    assert Serialize(m, limit) == Header(m) + (q.bytes + a.bytes);
    AtSplit(b, 0, Header(m), q.bytes + a.bytes);
    AtSplit(b, 12, q.bytes, a.bytes);
    HeaderBack(b, m);
    QueriesTrip(b, m.queries, 12, [], limit);
    if m.Response? && GoodQueries(m.queries, 12, [], limit) {
      AnswersTrip(b, m.answers, 12 + |q.bytes|, q.table, limit);
      QueriesBelow(m.queries, 12, [], limit);
    }
  }

  /**
   The compression table tells the truth: in any packet that starts with the octets of the message,
   whatever follows them, every entry stored while writing reads as the name it denotes.
   */
  lemma TableStaysTrue(b: seq<byte>, m: Message<Label>, limit: Option<nat>)
    requires GoodFields(m) && GoodNames(m, limit) && At(b, 0, Serialize(m, limit))
    ensures TableOk(b, EmitMessage(m, limit).table)
  {
    hide ParseQueries, ParseAnswers, EmitQueries, EmitAnswers, GoodQueries, GoodAnswers, Header, GoodQueriesFields,
      GoodAnswersFields, EntryOk, ViewQueries, ViewAnswers;
    var q := EmitQueries(m.queries, 12, [], limit);
    var a := if m.Response? then EmitAnswers(m.answers, 12 + |q.bytes|, q.table, limit) else Written([], q.table);
    assert q.bytes + [] == q.bytes;
    assert Serialize(m, limit) == Header(m) + (q.bytes + a.bytes);
    AtSplit(b, 0, Header(m), q.bytes + a.bytes);
    AtSplit(b, 12, q.bytes, a.bytes);
    QueriesTrip(b, m.queries, 12, [], limit);
    if m.Response? {
      AnswersTrip(b, m.answers, 12 + |q.bytes|, q.table, limit);
    }
  }

  lemma {:induction false} QueriesBelow(qs: seq<Query<Label>>, p: nat, table: Table, limit: Option<nat>)
    requires GoodQueriesFields(qs) && Below(table, p)
    ensures var e := EmitQueries(qs, p, table, limit); Below(e.table, p + |e.bytes|)
  {
    hide EmitQuery, GoodQueryFields, Below;
    if qs != [] {
      QueryBelow(qs[0], p, table, limit);
      var e := EmitQuery(qs[0], p, table, limit);
      QueriesBelow(qs[1..], p + |e.bytes|, e.table, limit);
    }
  }
}

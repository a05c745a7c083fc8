/** Arbitrary packets: reading, writing without pointers, and reading again. */
module Canonical {
  import opened Bytes
  import opened Names
  import opened Writers
  import opened LabelParser
  import opened LabelWriter
  import opened NameTrip
  import opened Messages
  import opened MessageTrip
  import opened Received
  import opened Capacity

  // What a message says on the wire: like its meaning, but with the segments as they were sent.

  function WireQuery(q: Query<Label>): Query<Name>
  {
    Query(Wire(q.name.items), q.qtype, q.qclass)
  }

  function WireRecord(r: Record<Label>): Record<Name>
  {
    match r
    case RecA(v4) => RecA(v4)
    case RecAAAA(v6) => RecAAAA(v6)
    case RecPTR(name) => RecPTR(Wire(name.items))
    case RecTXT(text) => RecTXT(text)
    case RecSRV(priority, weight, port, target) => RecSRV(priority, weight, port, Wire(target.items))
  }

  function WireAnswer(a: Answer<Label>): Answer<Name>
  {
    Answer(Wire(a.name.items), a.atype, a.aclass, a.ttl, WireRecord(a.record))
  }

  function WireQueries(qs: seq<Query<Label>>): seq<Query<Name>>
  {
    if qs == [] then [] else [WireQuery(qs[0])] + WireQueries(qs[1..])
  }

  function WireAnswers(xs: seq<Answer<Label>>): seq<Answer<Name>>
  {
    if xs == [] then [] else [WireAnswer(xs[0])] + WireAnswers(xs[1..])
  }

  function WireMessage(m: Message<Label>): Message<Name>
  {
    match m
    case Request(id, flags, queries) => Request(id, flags, WireQueries(queries))
    case Response(id, flags, queries, answers) => Response(id, flags, WireQueries(queries), WireAnswers(answers))
  }

  // ---------------------------------------------------------------- writing depends on the wire form only

  function PlainName(wire: Name): seq<byte>
  {
    Raw(wire) + [0]
  }

  lemma PlainLabel(lab: Label, pos: nat, table: Table, limit: Option<nat>)
    requires RunItems(lab.items)
    ensures EmitLabel(lab, pos, table, limit) == Emission(PlainName(Wire(lab.items)), table, Wire(lab.items), None)
  {
    hide RunItems, Raw, Wire, EmitItems;
    RunsShape(lab.items, pos, table, limit);
    assert Seal(table, |table|, None) == table;
  }

  lemma SameRecord(x: Record<Label>, y: Record<Label>, p: nat, q: nat, table: Table, other: Table,
                   l: Option<nat>, k: Option<nat>)
    requires RunRecord(x) && RunRecord(y) && WireRecord(x) == WireRecord(y)
    ensures EmitRecord(x, p, table, l).bytes == EmitRecord(y, q, other, k).bytes
    ensures EmitRecord(x, p, table, l).table == table && EmitRecord(y, q, other, k).table == other
  {
    hide RunItems, EmitLabel, Wire;
    match x
    case RecPTR(name) =>
      PlainLabel(name, p + 2, table, l);
      PlainLabel(y.name, q + 2, other, k);
    case RecSRV(_, _, _, target) =>
      PlainLabel(target, p + 8, table, l);
      PlainLabel(y.target, q + 8, other, k);
    case _ =>
  }

  lemma SameAnswer(x: Answer<Label>, y: Answer<Label>, p: nat, q: nat, table: Table, other: Table,
                   l: Option<nat>, k: Option<nat>)
    requires RunAnswer(x) && RunAnswer(y) && WireAnswer(x) == WireAnswer(y)
    ensures EmitAnswer(x, p, table, l).bytes == EmitAnswer(y, q, other, k).bytes
    ensures EmitAnswer(x, p, table, l).table == table && EmitAnswer(y, q, other, k).table == other
  {
    hide RunItems, EmitLabel, Wire, EmitRecord, RunRecord, WireRecord, TypeCode, ClassCode;
    PlainLabel(x.name, p, table, l);
    PlainLabel(y.name, q, other, k);
    var n := |EmitLabel(x.name, p, table, l).bytes|;
    SameRecord(x.record, y.record, p + n + 8, q + n + 8, table, other, l, k);
  }

  lemma {:induction false} SameQueries(xs: seq<Query<Label>>, ys: seq<Query<Label>>, p: nat, q: nat,
                                       table: Table, other: Table, l: Option<nat>, k: Option<nat>)
    requires RunQueries(xs) && RunQueries(ys) && WireQueries(xs) == WireQueries(ys)
    ensures |xs| == |ys|
    ensures EmitQueries(xs, p, table, l).bytes == EmitQueries(ys, q, other, k).bytes
    ensures EmitQueries(xs, p, table, l).table == table
  {
    hide RunItems, EmitLabel, Wire, TypeCode, ClassCode;
    if xs != [] && ys != [] {
      var x, y := xs[0], ys[0];
      assert WireQueries(xs)[0] == WireQuery(x) && WireQueries(ys)[0] == WireQuery(y);
      assert WireQueries(xs)[1..] == WireQueries(xs[1..]) && WireQueries(ys)[1..] == WireQueries(ys[1..]);
      PlainLabel(x.name, p, table, l);
      PlainLabel(y.name, q, other, k);
      var n := |EmitQuery(x, p, table, l).bytes|;
      SameQueries(xs[1..], ys[1..], p + n, q + n, table, other, l, k);
    }
  }

  lemma {:induction false} SameAnswers(xs: seq<Answer<Label>>, ys: seq<Answer<Label>>, p: nat, q: nat,
                                       table: Table, other: Table, l: Option<nat>, k: Option<nat>)
    requires RunAnswers(xs) && RunAnswers(ys) && WireAnswers(xs) == WireAnswers(ys)
    ensures |xs| == |ys|
    ensures EmitAnswers(xs, p, table, l).bytes == EmitAnswers(ys, q, other, k).bytes
    ensures EmitAnswers(xs, p, table, l).table == table
  {
    hide RunAnswer, EmitAnswer, WireAnswer;
    if xs != [] && ys != [] {
      assert WireAnswers(xs)[0] == WireAnswer(xs[0]) && WireAnswers(ys)[0] == WireAnswer(ys[0]);
      assert WireAnswers(xs)[1..] == WireAnswers(xs[1..]) && WireAnswers(ys)[1..] == WireAnswers(ys[1..]);
      SameAnswer(xs[0], ys[0], p, q, table, other, l, k);
      var n := |EmitAnswer(xs[0], p, table, l).bytes|;
      SameAnswers(xs[1..], ys[1..], p + n, q + n, table, other, l, k);
    }
  }

  lemma NoRecordPointer(x: Record<Label>, p: nat, table: Table, limit: Option<nat>)
    requires RunRecord(x)
    ensures RecordPointers(x, p, table, limit) == 0
  {
    hide RunItems, EmitLabel, Wire;
    match x
    case RecPTR(name) => PlainLabel(name, p + 2, table, limit);
    case RecSRV(_, _, _, target) => PlainLabel(target, p + 8, table, limit);
    case _ =>
  }

  lemma {:induction false} NoPointersAsked(qs: seq<Query<Label>>, p: nat, table: Table, limit: Option<nat>)
    requires RunQueries(qs)
    ensures QueriesPointers(qs, p, table, limit) == 0
  {
    hide RunItems, EmitLabel, Wire;
    if qs != [] {
      PlainLabel(qs[0].name, p, table, limit);
      var e := EmitQuery(qs[0], p, table, limit);
      NoPointersAsked(qs[1..], p + |e.bytes|, e.table, limit);
    }
  }

  lemma {:induction false} NoPointersAnswered(xs: seq<Answer<Label>>, p: nat, table: Table, limit: Option<nat>)
    requires RunAnswers(xs)
    ensures AnswersPointers(xs, p, table, limit) == 0
  {
    hide RunItems, EmitLabel, Wire, RecordPointers, EmitAnswer, RunRecord;
    if xs != [] {
      assert RunAnswer(xs[0]);
      PlainLabel(xs[0].name, p, table, limit);
      var n, e := EmitLabel(xs[0].name, p, table, limit), EmitAnswer(xs[0], p, table, limit);
      NoRecordPointer(xs[0].record, p + |n.bytes| + 8, n.table, limit);
      NoPointersAnswered(xs[1..], p + |e.bytes|, e.table, limit);
    }
  }

  /** A message made of received names is written without pointers. */
  lemma NoPointers(m: Message<Label>, limit: Option<nat>)
    requires RunNames(m)
    ensures Pointers(m, limit) == 0
  {
    hide RunQueries, RunAnswers, EmitQueries, QueriesPointers, AnswersPointers;
    NoPointersAsked(m.queries, 12, [], limit);
    if m.Response? {
      var q := EmitQueries(m.queries, 12, [], limit);
      NoPointersAnswered(m.answers, 12 + |q.bytes|, q.table, limit);
    }
  }

  /**
   Parsed messages with the same wire form are written to the same octets, whatever the table size,
   and nothing goes into the table.
   */
  lemma SameOctets(x: Message<Label>, y: Message<Label>, l: Option<nat>, k: Option<nat>)
    requires RunNames(x) && RunNames(y) && WireMessage(x) == WireMessage(y)
    ensures Serialize(x, l) == Serialize(y, k)
    ensures EmitMessage(x, l).table == []
  {
    hide RunQueries, RunAnswers, EmitQueries, EmitAnswers, WireQueries, WireAnswers;
    SameQueries(x.queries, y.queries, 12, 12, [], [], l, k);
    if x.Response? {
      var n := |EmitQueries(x.queries, 12, [], l).bytes|;
      SameQueries(y.queries, y.queries, 12, 12, [], [], k, k);
      SameAnswers(x.answers, y.answers, 12 + n, 12 + n, [], [], l, k);
    }
  }

  // ---------------------------------------------------------------- reading back

  lemma PlainReturns(b: seq<byte>, lab: Label, p: nat, table: Table, limit: Option<nat>)
    requires RunItems(lab.items) && At(b, p, EmitLabel(lab, p, table, limit).bytes)
    ensures var e, r := EmitLabel(lab, p, table, limit), ParseLabel(b[p..], b, None);
      && r.Some? && r.value.rest == b[p + |e.bytes|..]
      && Wire(r.value.value.items) == Wire(lab.items)
      && |r.value.value.items| == 1
  {
    hide RunItems, Raw, Wire, EmitItems, Decode, ParseLabel, Segs, FlatSplit, Reads;
    PlainLabel(lab, p, table, limit);
    RunsShape(lab.items, p, table, limit);
    RunsRead(b, lab.items, p, table, limit);
    BudgetGives(b, p, Wire(lab.items), 0, 1, p + |PlainName(Wire(lab.items))|);
    ParseIsDecode(b[p..], b);
  }

  lemma RecordReturns(b: seq<byte>, t: QType, x: Record<Label>, p: nat, table: Table, limit: Option<nat>)
    requires GoodRecordFields(t, x) && RunRecord(x) && At(b, p, EmitRecord(x, p, table, limit).bytes)
    ensures var e, r := EmitRecord(x, p, table, limit), ParseRecord(b[p..], b, t, None);
      r.Some? && r.value.rest == b[p + |e.bytes|..] && WireRecord(r.value.value) == WireRecord(x)
  {
    hide EmitLabel, ParseLabel, Built, Wire, ReadU16, ReadCounted, Be16, RunItems, Utf8;
    match x
    case RecA(v4) => CountedBack(b, p, v4);
    case RecAAAA(v6) => CountedBack(b, p, v6);
    case RecTXT(text) => CountedBack(b, p, text);
    case RecPTR(name) =>
      var e := EmitLabel(name, p + 2, table, limit);
      AtSplit(b, p, Be16(|e.bytes|), e.bytes);
      assert b[p..][2..] == b[p + 2..];
      PlainReturns(b, name, p + 2, table, limit);
    case RecSRV(_, _, _, _) => SrvReturns(b, x, p, table, limit);
  }

  lemma SrvReturns(b: seq<byte>, x: Record<Label>, p: nat, table: Table, limit: Option<nat>)
    requires x.RecSRV? && RunRecord(x) && At(b, p, EmitRecord(x, p, table, limit).bytes)
    ensures var e, r := EmitRecord(x, p, table, limit), ParseSRV(b[p..], b, None);
      r.Some? && r.value.rest == b[p + |e.bytes|..] && WireRecord(r.value.value) == WireRecord(x)
  {
    hide EmitLabel, ParseLabel, Wire, ReadU16, Be16, RunItems;
    var e := EmitLabel(x.target, p + 8, table, limit);
    var head := SrvHead(x.priority, x.weight, x.port);
    AtSplit(b, p, Be16(6 + |e.bytes|), head + e.bytes);
    AtSplit(b, p + 2, head, e.bytes);
    AtSplit(b, p + 2, Be16(x.priority) + Be16(x.weight), Be16(x.port));
    AtSplit(b, p + 2, Be16(x.priority), Be16(x.weight));
    assert b[p..][2..] == b[p + 2..];
    ReadAt16(b, p + 2, x.priority);
    ReadAt16(b, p + 4, x.weight);
    ReadAt16(b, p + 6, x.port);
    PlainReturns(b, x.target, p + 8, table, limit);
  }

  lemma AnswerReturns(b: seq<byte>, a: Answer<Label>, p: nat, table: Table, limit: Option<nat>)
    requires GoodAnswerFields(a) && RunAnswer(a) && At(b, p, EmitAnswer(a, p, table, limit).bytes)
    ensures var e, r := EmitAnswer(a, p, table, limit), ParseAnswer(b[p..], b, None);
      r.Some? && r.value.rest == b[p + |e.bytes|..] && WireAnswer(r.value.value) == WireAnswer(a)
  {
    hide EmitLabel, ParseLabel, Built, Wire, TypeOf, TypeCode, ClassOf, ClassCode, ReadU16, ReadU32, AnswerHead,
      EmitRecord, ParseRecord, WireRecord, GoodRecordFields, RunItems, RunRecord;
    var e := EmitLabel(a.name, p, table, limit);
    var m := p + |e.bytes|;
    var x := EmitRecord(a.record, m + 8, e.table, limit);
    AtSplit(b, p, e.bytes, AnswerHead(a) + x.bytes);
    AtSplit(b, m, AnswerHead(a), x.bytes);
    PlainReturns(b, a.name, p, table, limit);
    HeadBack(b, a, m);
    RecordType(a.atype, a.record);
    RecordReturns(b, a.atype, a.record, m + 8, e.table, limit);
  }

  lemma QueryReturns(b: seq<byte>, q: Query<Label>, p: nat, table: Table, limit: Option<nat>)
    requires GoodQueryFields(q) && RunItems(q.name.items) && At(b, p, EmitQuery(q, p, table, limit).bytes)
    ensures var e, r := EmitQuery(q, p, table, limit), ParseQuery(b[p..], b, None);
      r.Some? && r.value.rest == b[p + |e.bytes|..] && WireQuery(r.value.value) == WireQuery(q)
  {
    hide EmitLabel, ParseLabel, Built, Wire, TypeOf, TypeCode, ClassOf, ClassCode, ReadU16, Be16, RunItems;
    var e := EmitLabel(q.name, p, table, limit);
    var t, c := Be16(TypeCode(q.qtype)), Be16(ClassCode(q.qclass));
    AtSplit(b, p, e.bytes, t + c);
    PlainReturns(b, q.name, p, table, limit);
    var m := p + |e.bytes|;
    AtSplit(b, m, t, c);
    ReadAt16(b, m, TypeCode(q.qtype));
    ReadAt16(b, m + 2, ClassCode(q.qclass));
  }

  lemma {:induction false} QueriesReturn(b: seq<byte>, qs: seq<Query<Label>>, p: nat, table: Table, limit: Option<nat>)
    requires GoodQueriesFields(qs) && RunQueries(qs) && At(b, p, EmitQueries(qs, p, table, limit).bytes)
    ensures var e, r := EmitQueries(qs, p, table, limit), ParseQueries(|qs|, b[p..], b, None, None);
      r.Some? && r.value.rest == b[p + |e.bytes|..] && WireQueries(r.value.value) == WireQueries(qs)
  {
    hide ParseQuery, EmitQuery, WireQuery, GoodQueryFields, RunItems;
    if qs != [] {
      var e := EmitQuery(qs[0], p, table, limit);
      var more := EmitQueries(qs[1..], p + |e.bytes|, e.table, limit);
      AtSplit(b, p, e.bytes, more.bytes);
      QueryReturns(b, qs[0], p, table, limit);
      QueriesReturn(b, qs[1..], p + |e.bytes|, e.table, limit);
      var r := ParseQuery(b[p..], b, None).value;
      var rs := ParseQueries(|qs| - 1, r.rest, b, None, None).value;
      assert ([r.value] + rs.value)[1..] == rs.value;
    }
  }

  lemma {:induction false} AnswersReturn(b: seq<byte>, xs: seq<Answer<Label>>, p: nat, table: Table, limit: Option<nat>)
    requires GoodAnswersFields(xs) && RunAnswers(xs) && At(b, p, EmitAnswers(xs, p, table, limit).bytes)
    ensures var e, r := EmitAnswers(xs, p, table, limit), ParseAnswers(|xs|, b[p..], b, None, None);
      r.Some? && r.value.rest == b[p + |e.bytes|..] && WireAnswers(r.value.value) == WireAnswers(xs)
  {
    hide ParseAnswer, EmitAnswer, WireAnswer, GoodAnswerFields, RunAnswer;
    if xs != [] {
      var e := EmitAnswer(xs[0], p, table, limit);
      var more := EmitAnswers(xs[1..], p + |e.bytes|, e.table, limit);
      AtSplit(b, p, e.bytes, more.bytes);
      AnswerReturns(b, xs[0], p, table, limit);
      AnswersReturn(b, xs[1..], p + |e.bytes|, e.table, limit);
      var r := ParseAnswer(b[p..], b, None).value;
      var rs := ParseAnswers(|xs| - 1, r.rest, b, None, None).value;
      assert ([r.value] + rs.value)[1..] == rs.value;
    }
  }

  lemma PlainMessageReturns(m: Message<Label>, limit: Option<nat>)
    requires GoodFields(m) && RunNames(m)
    ensures var b := Serialize(m, limit);
      var r := ParseMessage(b, GROWING);
      r.Some? && r.value.rest == [] && WireMessage(r.value.value) == WireMessage(m)
  {
    hide ParseQueries, ParseAnswers, EmitQueries, EmitAnswers, WireQueries, WireAnswers,
      Header, ParseHead, ReadU16, GoodQueriesFields, GoodAnswersFields, RunQueries, RunAnswers, IsRequest;
    var b := Serialize(m, limit);
    var q := EmitQueries(m.queries, 12, [], limit);
    var a := if m.Response? then EmitAnswers(m.answers, 12 + |q.bytes|, q.table, limit) else Written([], q.table);
    assert q.bytes + [] == q.bytes;
    assert b == Header(m) + (q.bytes + a.bytes);
    AtSplit(b, 0, Header(m), q.bytes + a.bytes);
    AtSplit(b, 12, q.bytes, a.bytes);
    HeaderBack(b, m);
    QueriesReturn(b, m.queries, 12, [], limit);
    if m.Response? {
      AnswersReturn(b, m.answers, 12 + |q.bytes|, q.table, limit);
    }
    assert b[|b|..] == [];
  }

  // ---------------------------------------------------------------- meaning follows from the wire form

  lemma SegsByWire(x: Label, y: Label)
    requires RunItems(x.items) && RunItems(y.items) && Wire(x.items) == Wire(y.items)
    ensures Segs(x) == Segs(y)
  {
    hide Wire, FlatSplit, ItemsSegs;
    WireSplits(x.items);
    WireSplits(y.items);
  }

  lemma RecordByWire(x: Record<Label>, y: Record<Label>)
    requires RunRecord(x) && RunRecord(y) && WireRecord(x) == WireRecord(y)
    ensures ViewRecord(x) == ViewRecord(y)
  {
    hide RunItems, Wire, Segs;
    match x
    case RecPTR(name) => SegsByWire(name, y.name);
    case RecSRV(_, _, _, target) => SegsByWire(target, y.target);
    case _ =>
  }

  lemma {:induction false} QueriesByWire(xs: seq<Query<Label>>, ys: seq<Query<Label>>)
    requires RunQueries(xs) && RunQueries(ys) && WireQueries(xs) == WireQueries(ys)
    ensures ViewQueries(xs) == ViewQueries(ys)
  {
    hide RunItems, Wire, Segs;
    if xs != [] && ys != [] {
      assert WireQueries(xs)[0] == WireQuery(xs[0]) && WireQueries(ys)[0] == WireQuery(ys[0]);
      assert WireQueries(xs)[1..] == WireQueries(xs[1..]) && WireQueries(ys)[1..] == WireQueries(ys[1..]);
      SegsByWire(xs[0].name, ys[0].name);
      QueriesByWire(xs[1..], ys[1..]);
    }
  }

  lemma {:induction false} AnswersByWire(xs: seq<Answer<Label>>, ys: seq<Answer<Label>>)
    requires RunAnswers(xs) && RunAnswers(ys) && WireAnswers(xs) == WireAnswers(ys)
    ensures ViewAnswers(xs) == ViewAnswers(ys)
  {
    hide RunItems, Wire, Segs, RunRecord, WireRecord, ViewRecord;
    if xs != [] && ys != [] {
      assert WireAnswers(xs)[0] == WireAnswer(xs[0]) && WireAnswers(ys)[0] == WireAnswer(ys[0]);
      assert WireAnswers(xs)[1..] == WireAnswers(xs[1..]) && WireAnswers(ys)[1..] == WireAnswers(ys[1..]);
      assert RunAnswer(xs[0]) && RunAnswer(ys[0]);
      SegsByWire(xs[0].name, ys[0].name);
      RecordByWire(xs[0].record, ys[0].record);
      AnswersByWire(xs[1..], ys[1..]);
    }
  }

  /**
   Canonical form: any packet that is accepted, with whatever pointers, is written again without
   any; the result is accepted whole, means the same, and writing that gives the same octets.
   */
  lemma Canonical(packet: seq<byte>, caps: Caps, limit: Option<nat>)
    requires ParseMessage(packet, caps).Some?
    ensures var m := ParseMessage(packet, caps).value.value;
      var b := Serialize(m, limit);
      var again := ParseMessage(b, GROWING);
      && Pointers(m, limit) == 0
      && again.Some? && again.value.rest == []
      && View(again.value.value) == View(m)
      && forall k :: Serialize(again.value.value, k) == b
  {
    hide ParseMessage, RunNames, GoodFields, WireQueries, WireAnswers, ViewQueries, ViewAnswers, EmitMessage,
      RunQueries, RunAnswers, Pointers;
    var m := ParseMessage(packet, caps).value.value;
    MessageReceived(packet, caps);
    PlainMessageReturns(m, limit);
    var b := Serialize(m, limit);
    MessageReceived(b, GROWING);
    var n := ParseMessage(b, GROWING).value.value;
    NoPointers(m, limit);
    MeaningByWire(n, m);
    forall k: Option<nat>
      ensures Serialize(n, k) == b
    {
      SameOctets(n, m, k, limit);
    }
  }

  lemma MeaningByWire(x: Message<Label>, y: Message<Label>)
    requires RunNames(x) && RunNames(y) && WireMessage(x) == WireMessage(y)
    ensures View(x) == View(y)
  {
    hide RunQueries, RunAnswers, WireQueries, WireAnswers, ViewQueries, ViewAnswers;
    QueriesByWire(x.queries, y.queries);
    if x.Response? {
      AnswersByWire(x.answers, y.answers);
    }
  }
}

/** Small lists and small buffers: what they change, and what they do not. */
module Capacity {
  import opened Bytes
  import opened Names
  import opened Writers
  import opened LabelParser
  import opened LabelWriter
  import opened NameShape
  import opened NameTrip
  import opened Messages
  import opened MessageTrip
  import opened MessageIO
  import opened NoClash
  import opened Received

  // ---------------------------------------------------------------- lists of limited size

  predicate Holds(cap: Option<nat>, n: nat)
  {
    cap.None? || n <= cap.value
  }

  predicate LabelWithin(lab: Label, llen: Option<nat>)
  {
    Holds(llen, |lab.items|)
  }

  predicate RecordWithin(r: Record<Label>, llen: Option<nat>)
  {
    match r
    case RecPTR(name) => LabelWithin(name, llen)
    case RecSRV(_, _, _, target) => LabelWithin(target, llen)
    case _ => true
  }

  predicate AnswerWithin(a: Answer<Label>, llen: Option<nat>)
  {
    LabelWithin(a.name, llen) && RecordWithin(a.record, llen)
  }

  /** The message has room in lists of these sizes. */
  predicate Within(m: Message<Label>, caps: Caps)
  {
    && Holds(caps.qlen, |m.queries|)
    && (forall q :: q in m.queries ==> LabelWithin(q.name, caps.llen))
    && (m.Response? ==> Holds(caps.alen, |m.answers|) && forall a :: a in m.answers ==> AnswerWithin(a, caps.llen))
  }

  lemma LabelCap(input: seq<byte>, ctx: seq<byte>, llen: Option<nat>)
    ensures var g := ParseLabel(input, ctx, None);
      ParseLabel(input, ctx, llen) == if g.Some? && LabelWithin(g.value.value, llen) then g else None
  {
    hide ParseRuns;
    if llen.Some? {
      RoomOnlyRejects(input, 0, ctx, BUDGET, llen.value);
    }
  }

  lemma QueryCap(input: seq<byte>, ctx: seq<byte>, llen: Option<nat>)
    ensures var g := ParseQuery(input, ctx, None);
      ParseQuery(input, ctx, llen) == if g.Some? && LabelWithin(g.value.value.name, llen) then g else None
  {
    hide ParseLabel, ReadU16, TypeOf, ClassOf;
    LabelCap(input, ctx, llen);
  }

  lemma RecordCap(input: seq<byte>, ctx: seq<byte>, t: QType, llen: Option<nat>)
    ensures var g := ParseRecord(input, ctx, t, None);
      ParseRecord(input, ctx, t, llen) == if g.Some? && RecordWithin(g.value.value, llen) then g else None
  {
    hide ParseLabel, ReadU16, ParseA, ParseAAAA, ParseTXT;
    match t
    case PTR =>
      if ReadU16(input).Some? {
        LabelCap(ReadU16(input).value.rest, ctx, llen);
      }
    case SRV => SrvCap(input, ctx, llen);
    case A => PlainKinds(input);
    case AAAA => PlainKinds(input);
    case TXT => PlainKinds(input);
    case _ =>
  }

  lemma PlainKinds(input: seq<byte>)
    ensures ParseA(input).Some? ==> ParseA(input).value.value.RecA?
    ensures ParseAAAA(input).Some? ==> ParseAAAA(input).value.value.RecAAAA?
    ensures ParseTXT(input).Some? ==> ParseTXT(input).value.value.RecTXT?
  {
    hide ReadCounted;
  }

  lemma SrvCap(input: seq<byte>, ctx: seq<byte>, llen: Option<nat>)
    ensures var g := ParseSRV(input, ctx, None);
      ParseSRV(input, ctx, llen) == if g.Some? && LabelWithin(g.value.value.target, llen) then g else None
  {
    hide ParseLabel, ReadU16;
    var one := ReadU16(input);
    if one.Some? {
      var two := ReadU16(one.value.rest);
      if two.Some? {
        var three := ReadU16(two.value.rest);
        if three.Some? {
          var four := ReadU16(three.value.rest);
          if four.Some? {
            LabelCap(four.value.rest, ctx, llen);
          }
        }
      }
    }
  }

  lemma AnswerCap(input: seq<byte>, ctx: seq<byte>, llen: Option<nat>)
    ensures var g := ParseAnswer(input, ctx, None);
      ParseAnswer(input, ctx, llen) == if g.Some? && AnswerWithin(g.value.value, llen) then g else None
  {
    hide ParseLabel, ReadU16, ReadU32, TypeOf, ClassOf, ParseRecord, RecordWithin;
    LabelCap(input, ctx, llen);
    var name := ParseLabel(input, ctx, None);
    if name.Some? {
      var atype := ReadU16(name.value.rest);
      if atype.Some? {
        var aclass := ReadU16(atype.value.rest);
        if aclass.Some? {
          var ttl := ReadU32(aclass.value.rest);
          if ttl.Some? {
            RecordCap(ttl.value.rest, ctx, TypeOf(atype.value.value), llen);
          }
        }
      }
    }
  }

  predicate QueriesWithin(qs: seq<Query<Label>>, llen: Option<nat>)
  {
    forall q :: q in qs ==> LabelWithin(q.name, llen)
  }

  predicate AnswersWithin(xs: seq<Answer<Label>>, llen: Option<nat>)
  {
    forall a :: a in xs ==> AnswerWithin(a, llen)
  }

  lemma ConsQueries(q: Query<Label>, qs: seq<Query<Label>>, llen: Option<nat>)
    ensures QueriesWithin([q] + qs, llen) <==> LabelWithin(q.name, llen) && QueriesWithin(qs, llen)
  {
    hide LabelWithin;
    assert q in [q] + qs && forall x :: x in qs ==> x in [q] + qs;
  }

  lemma ConsAnswers(a: Answer<Label>, xs: seq<Answer<Label>>, llen: Option<nat>)
    ensures AnswersWithin([a] + xs, llen) <==> AnswerWithin(a, llen) && AnswersWithin(xs, llen)
  {
    hide AnswerWithin;
    assert a in [a] + xs && forall x :: x in xs ==> x in [a] + xs;
  }

  lemma {:induction false} QueriesCap(n: nat, input: seq<byte>, ctx: seq<byte>, room: Option<nat>, llen: Option<nat>)
    ensures var g := ParseQueries(n, input, ctx, None, None);
      ParseQueries(n, input, ctx, room, llen) ==
      if g.Some? && Holds(room, n) && QueriesWithin(g.value.value, llen) then g else None
  {
    hide ParseQuery, QueriesWithin, LabelWithin;
    if n == 0 {
      NoneWithin(llen);
    } else {
      QueryCap(input, ctx, llen);
      var q := ParseQuery(input, ctx, None);
      if q.Some? {
        var more := ParseQueries(n - 1, q.value.rest, ctx, None, None);
        if !Full(room) {
          QueriesCap(n - 1, q.value.rest, ctx, Less(room), llen);
        }
        if more.Some? {
          ConsQueries(q.value.value, more.value.value, llen);
        }
      }
    }
  }

  lemma NoneWithin(llen: Option<nat>)
    ensures QueriesWithin([], llen) && AnswersWithin([], llen)
  {
  }

  lemma {:induction false} AnswersCap(n: nat, input: seq<byte>, ctx: seq<byte>, room: Option<nat>, llen: Option<nat>)
    ensures var g := ParseAnswers(n, input, ctx, None, None);
      ParseAnswers(n, input, ctx, room, llen) ==
      if g.Some? && Holds(room, n) && AnswersWithin(g.value.value, llen) then g else None
  {
    hide ParseAnswer, AnswersWithin, AnswerWithin;
    if n == 0 {
      NoneWithin(llen);
    } else {
      AnswerCap(input, ctx, llen);
      var a := ParseAnswer(input, ctx, None);
      if a.Some? {
        var more := ParseAnswers(n - 1, a.value.rest, ctx, None, None);
        if !Full(room) {
          AnswersCap(n - 1, a.value.rest, ctx, Less(room), llen);
        }
        if more.Some? {
          ConsAnswers(a.value.value, more.value.value, llen);
        }
      }
    }
  }

  /**
   Lists of limited size only reject: a packet is parsed as with lists that grow, or not at all, and
   it is rejected just when the message has no room in them.
   */
  lemma CapsOnlyReject(input: seq<byte>, caps: Caps)
    ensures var g := ParseMessage(input, GROWING);
      ParseMessage(input, caps) == if g.Some? && Within(g.value.value, caps) then g else None
  {
    hide ParseQueries, ParseAnswers, ReadU16, IsRequest, LabelWithin, AnswerWithin;
    var h := ParseHead(input);
    if h.Some? {
      var head := h.value.value;
      QueriesCap(head.qdcount, h.value.rest, input, caps.qlen, caps.llen);
      QueriesReceived(head.qdcount, h.value.rest, input, None, None);
      var q := ParseQueries(head.qdcount, h.value.rest, input, None, None);
      if q.Some? {
        AnswersCap(head.ancount, q.value.rest, input, caps.alen, caps.llen);
        AnswersReceived(head.ancount, q.value.rest, input, None, None);
      }
    }
  }

  /**
   A name of up to four segments without clashes is read back even into a list that takes no more
   parts than the name has segments.
   */
  lemma FewPartsSuffice(b: seq<byte>, lab: Label, p: nat, table: Table, limit: Option<nat>, early: set<seq<byte>>,
                        llen: nat)
    requires Fit(lab, early) && Kept(table, p, early) && TableOk(b, table)
    requires At(b, p, EmitLabel(lab, p, table, limit).bytes) && p + |EmitLabel(lab, p, table, limit).bytes| <= REACH
    requires llen >= 1 && llen >= |Segs(lab)|
    ensures var r := ParseLabel(b[p..], b, Some(llen)); r.Some? && Segs(r.value.value) == Segs(lab)
  {
    hide ParseLabel, EmitItems, Seal, GoodLabel, Texts, Below, RunItems, StrItems, ItemsSegs, WireSegs, TableOk;
    FitLabel(lab, p, table, limit, early);
    LabelReturns(b, lab, p, table, limit);
    LabelCap(b[p..], b, Some(llen));
    if !RunItems(lab.items) {
      HopBound(lab, p, table, limit, early);
    }
  }

  // ---------------------------------------------------------------- compression saves room

  /** The pointers written in a label. */
  function LabelPointers(e: Emission): nat
  {
    if e.hit.Some? then 1 else 0
  }

  const PLAIN: Option<nat> := Some(0)

  lemma {:induction false} NothingStored(items: seq<Part>, pos: nat)
    requires StrItems(items)
    ensures EmitItems(items, pos, [], PLAIN).table == [] && EmitItems(items, pos, [], PLAIN).hit == None
  {
    hide EmitStr, EmitItems, StrSegs, ItemsSegs, Raw;
    var e, r := FirstPart(items, pos, [], PLAIN);
    StrNothingStored(items[0].text, |items| == 1, pos, ItemsSegs(items[1..]));
    if |items| > 1 {
      NothingStored(items[1..], pos + |e.bytes|);
    }
  }

  lemma {:induction false} StrNothingStored(s: seq<byte>, last: bool, pos: nat, tail: Name)
    ensures var e := EmitStr(s, last, pos, [], PLAIN, tail); e.table == [] && e.hit == None
    decreases |s|
  {
    hide EmitStr, StrSegs, FirstSeg;
    if s == [] {
      StrStop(s, last, pos, [], PLAIN, tail);
    } else {
      var r := StrStep(s, last, pos, [], PLAIN, tail);
      StrNothingStored(AfterDot(s), last, pos + 1 + |FirstSeg(s)|, tail);
    }
  }

  /** A name saves at least an octet with its pointer, and takes as much as before without one. */
  lemma LabelSaves(lab: Label, pos: nat, table: Table, limit: Option<nat>, other: nat)
    requires Proper(lab)
    ensures var e, plain := EmitLabel(lab, pos, table, limit), EmitLabel(lab, other, [], PLAIN);
      |e.bytes| + LabelPointers(e) <= |plain.bytes| && plain.table == []
  {
    hide EmitItems, StrSegs, ItemsSegs, RunItems, Raw, WireSeg;
    if RunItems(lab.items) {
      RunsShape(lab.items, pos, table, limit);
      RunsShape(lab.items, other, [], PLAIN);
    } else {
      var e, plain := EmitItems(lab.items, pos, table, limit), EmitItems(lab.items, other, [], PLAIN);
      ItemsShape(lab.items, pos, table, limit);
      ItemsShape(lab.items, other, [], PLAIN);
      NothingStored(lab.items, other);
      RawConcat(e.full, Pointed(e.hit));
      RawEmpty();
      assert plain.full == plain.full + [] == e.full + Pointed(e.hit);
      if e.hit.Some? {
        SomeSegs(e.hit.value.text);
        assert forall seg :: seg in Pointed(e.hit) ==> seg in Segs(lab);
        RawLong(Pointed(e.hit));
      }
    }
  }

  lemma RawLong(segs: Name)
    requires segs != [] && WireSegs(segs)
    ensures |Raw(segs)| >= 2
  {
    assert segs[0] in segs;
  }

  function RecordPointers(r: Record<Label>, pos: nat, table: Table, limit: Option<nat>): nat
  {
    match r
    case RecPTR(name) => LabelPointers(EmitLabel(name, pos + 2, table, limit))
    case RecSRV(_, _, _, target) => LabelPointers(EmitLabel(target, pos + 8, table, limit))
    case _ => 0
  }

  function AnswerPointers(a: Answer<Label>, pos: nat, table: Table, limit: Option<nat>): nat
  {
    var e := EmitLabel(a.name, pos, table, limit);
    LabelPointers(e) + RecordPointers(a.record, pos + |e.bytes| + 8, e.table, limit)
  }

  function QueriesPointers(qs: seq<Query<Label>>, pos: nat, table: Table, limit: Option<nat>): nat
  {
    if qs == [] then 0
    else
      var e := EmitQuery(qs[0], pos, table, limit);
      LabelPointers(EmitLabel(qs[0].name, pos, table, limit)) +
      QueriesPointers(qs[1..], pos + |e.bytes|, e.table, limit)
  }

  function AnswersPointers(xs: seq<Answer<Label>>, pos: nat, table: Table, limit: Option<nat>): nat
  {
    if xs == [] then 0
    else
      var e := EmitAnswer(xs[0], pos, table, limit);
      AnswerPointers(xs[0], pos, table, limit) + AnswersPointers(xs[1..], pos + |e.bytes|, e.table, limit)
  }

  /** The pointers written in a message. */
  function Pointers(m: Message<Label>, limit: Option<nat>): nat
  {
    var q := EmitQueries(m.queries, 12, [], limit);
    QueriesPointers(m.queries, 12, [], limit) +
    if m.Request? then 0 else AnswersPointers(m.answers, 12 + |q.bytes|, q.table, limit)
  }

  lemma RecordSaves(r: Record<Label>, pos: nat, table: Table, limit: Option<nat>, other: nat)
    requires ProperRecord(r)
    ensures var e, plain := EmitRecord(r, pos, table, limit), EmitRecord(r, other, [], PLAIN);
      |e.bytes| + RecordPointers(r, pos, table, limit) <= |plain.bytes| && plain.table == []
  {
    hide EmitLabel, ItemsSegs, Built, RunItems;
    match r
    case RecPTR(name) => LabelSaves(name, pos + 2, table, limit, other + 2);
    case RecSRV(_, _, _, target) => LabelSaves(target, pos + 8, table, limit, other + 8);
    case _ =>
  }

  lemma AnswerSaves(a: Answer<Label>, pos: nat, table: Table, limit: Option<nat>, other: nat)
    requires ProperAnswer(a)
    ensures var e, plain := EmitAnswer(a, pos, table, limit), EmitAnswer(a, other, [], PLAIN);
      |e.bytes| + AnswerPointers(a, pos, table, limit) <= |plain.bytes| && plain.table == []
  {
    hide EmitLabel, ItemsSegs, Built, RunItems, EmitRecord, ProperRecord, RecordPointers;
    LabelSaves(a.name, pos, table, limit, other);
    var e, plain := EmitLabel(a.name, pos, table, limit), EmitLabel(a.name, other, [], PLAIN);
    RecordSaves(a.record, pos + |e.bytes| + 8, e.table, limit, other + |plain.bytes| + 8);
  }

  lemma {:induction false} QueriesSave(qs: seq<Query<Label>>, pos: nat, table: Table, limit: Option<nat>, other: nat)
    requires forall q :: q in qs ==> Proper(q.name)
    ensures var e, plain := EmitQueries(qs, pos, table, limit), EmitQueries(qs, other, [], PLAIN);
      |e.bytes| + QueriesPointers(qs, pos, table, limit) <= |plain.bytes| && plain.table == []
  {
    hide EmitLabel, ItemsSegs, Built, RunItems;
    if qs != [] {
      LabelSaves(qs[0].name, pos, table, limit, other);
      var e, plain := EmitQuery(qs[0], pos, table, limit), EmitQuery(qs[0], other, [], PLAIN);
      QueriesSave(qs[1..], pos + |e.bytes|, e.table, limit, other + |plain.bytes|);
    }
  }

  lemma {:induction false} AnswersSave(xs: seq<Answer<Label>>, pos: nat, table: Table, limit: Option<nat>, other: nat)
    requires forall a :: a in xs ==> ProperAnswer(a)
    ensures var e, plain := EmitAnswers(xs, pos, table, limit), EmitAnswers(xs, other, [], PLAIN);
      |e.bytes| + AnswersPointers(xs, pos, table, limit) <= |plain.bytes| && plain.table == []
  {
    hide EmitAnswer, ProperAnswer, AnswerPointers;
    if xs != [] {
      AnswerSaves(xs[0], pos, table, limit, other);
      var e, plain := EmitAnswer(xs[0], pos, table, limit), EmitAnswer(xs[0], other, [], PLAIN);
      AnswersSave(xs[1..], pos + |e.bytes|, e.table, limit, other + |plain.bytes|);
    }
  }

  /** Compression never makes a message longer, and every pointer makes it shorter. */
  lemma CompressionSaves(m: Message<Label>, limit: Option<nat>)
    requires ProperNames(m)
    ensures |Serialize(m, limit)| + Pointers(m, limit) <= |Serialize(m, PLAIN)|
  {
    hide EmitQueries, EmitAnswers, QueriesPointers, AnswersPointers, Proper, ProperAnswer;
    QueriesSave(m.queries, 12, [], limit, 12);
    if m.Response? {
      var q, plain := EmitQueries(m.queries, 12, [], limit), EmitQueries(m.queries, 12, [], PLAIN);
      AnswersSave(m.answers, 12 + |q.bytes|, q.table, limit, 12 + |plain.bytes|);
    }
  }

  // ---------------------------------------------------------------- reservations and overflow

  lemma {:induction false} AnswersReserveFits(xs: seq<Answer<Label>>, pos: nat, table: Table, limit: Option<nat>)
    ensures AnswersReserve(xs, pos, table, limit) <= pos + |EmitAnswers(xs, pos, table, limit).bytes|
  {
    hide EmitLabel;
    if xs != [] {
      var e := EmitAnswer(xs[0], pos, table, limit);
      AnswersReserveFits(xs[1..], pos + |e.bytes|, e.table, limit);
    }
  }

  /** The subtraction on RDLENGTH goes below zero only in a buffer that is too small anyway. */
  lemma ReserveFits(m: Message<Label>, limit: Option<nat>)
    ensures MessageReserve(m, limit) <= |Serialize(m, limit)|
  {
    hide EmitQueries, EmitAnswers, AnswersReserve;
    if m.Response? {
      var q := EmitQueries(m.queries, 12, [], limit);
      AnswersReserveFits(m.answers, 12 + |q.bytes|, q.table, limit);
    }
  }

  /**
   But then it may: every message with a PTR or SRV answer has buffer sizes at which it does, that
   of the header among them.
   */
  lemma {:induction false} ReserveExists(xs: seq<Answer<Label>>, pos: nat, table: Table, limit: Option<nat>, i: nat)
    requires i < |xs| && (xs[i].record.RecPTR? || xs[i].record.RecSRV?)
    ensures AnswersReserve(xs, pos, table, limit) > pos
  {
    hide EmitLabel, EmitAnswer;
    if i > 0 {
      var e := EmitAnswer(xs[0], pos, table, limit);
      ReserveExists(xs[1..], pos + |e.bytes|, e.table, limit, i - 1);
    }
  }
}

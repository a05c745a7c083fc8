/** What every accepted packet gives: proper fields, and names that are whole runs. */
module Received {
  import opened Bytes
  import opened Names
  import opened LabelParser
  import opened Messages

  predicate RunRecord(r: Record<Label>)
  {
    match r
    case RecPTR(name) => RunItems(name.items)
    case RecSRV(_, _, _, target) => RunItems(target.items)
    case _ => true
  }

  predicate RunAnswer(a: Answer<Label>)
  {
    RunItems(a.name.items) && RunRecord(a.record)
  }

  predicate RunQueries(qs: seq<Query<Label>>)
  {
    forall q :: q in qs ==> RunItems(q.name.items)
  }

  predicate RunAnswers(xs: seq<Answer<Label>>)
  {
    forall a :: a in xs ==> RunAnswer(a)
  }

  predicate RunNames(m: Message<Label>)
  {
    RunQueries(m.queries) && (m.Response? ==> RunAnswers(m.answers))
  }

  lemma LabelReceived(input: seq<byte>, ctx: seq<byte>, llen: Option<nat>)
    ensures var r := ParseLabel(input, ctx, llen);
      r.Some? ==> RunItems(r.value.value.items) && r == ParseLabel(input, ctx, None)
                  && (llen.Some? ==> |r.value.value.items| <= llen.value)
  {
    hide RunItems;
    if llen.Some? {
      RoomOnlyRejects(input, 0, ctx, BUDGET, llen.value);
    }
    ParseIsDecode(input, ctx);
  }

  lemma CodesBack(code: u16)
    ensures TypeOf(TypeCode(TypeOf(code))) == TypeOf(code) && ClassOf(ClassCode(ClassOf(code))) == ClassOf(code)
  {
  }

  lemma QueryReceived(input: seq<byte>, ctx: seq<byte>, llen: Option<nat>)
    ensures var r := ParseQuery(input, ctx, llen);
      r.Some? ==> GoodQueryFields(r.value.value) && RunItems(r.value.value.name.items)
  {
    hide RunItems, ParseLabel, TypeOf, ClassOf, TypeCode, ClassCode, ReadU16;
    LabelReceived(input, ctx, llen);
    var r := ParseQuery(input, ctx, llen);
    if r.Some? {
      var name := ParseLabel(input, ctx, llen).value;
      CodesBack(ReadU16(name.rest).value.value);
      CodesBack(ReadU16(ReadU16(name.rest).value.rest).value.value);
    }
  }

  lemma RecordReceived(input: seq<byte>, ctx: seq<byte>, t: QType, llen: Option<nat>)
    ensures var r := ParseRecord(input, ctx, t, llen);
      r.Some? ==> GoodRecordFields(t, r.value.value) && RunRecord(r.value.value)
  {
    hide RunItems, ParseLabel, ReadU16, Utf8;
    match t
    case PTR =>
      if ReadU16(input).Some? {
        LabelReceived(ReadU16(input).value.rest, ctx, llen);
      }
    case SRV =>
      SrvReceived(input, ctx, llen);
    case TXT =>
      CountedShort(input);
    case _ =>
  }

  lemma CountedShort(input: seq<byte>)
    ensures var r := ReadCounted(input); r.Some? ==> |r.value.value| < 0x1_0000
  {
    hide ReadU16;
  }

  lemma SrvReceived(input: seq<byte>, ctx: seq<byte>, llen: Option<nat>)
    ensures var r := ParseSRV(input, ctx, llen);
      r.Some? ==> r.value.value.RecSRV? && RunItems(r.value.value.target.items)
  {
    hide RunItems, ParseLabel, ReadU16;
    var r := ParseSRV(input, ctx, llen);
    if r.Some? {
      var rest := ReadU16(ReadU16(ReadU16(ReadU16(input).value.rest).value.rest).value.rest).value.rest;
      LabelReceived(rest, ctx, llen);
    }
  }

  lemma AnswerReceived(input: seq<byte>, ctx: seq<byte>, llen: Option<nat>)
    ensures var r := ParseAnswer(input, ctx, llen);
      r.Some? ==> GoodAnswerFields(r.value.value) && RunAnswer(r.value.value)
  {
    hide RunItems, ParseLabel, TypeOf, ClassOf, TypeCode, ClassCode, ReadU16, ReadU32, ParseRecord, GoodRecordFields,
      RunRecord;
    LabelReceived(input, ctx, llen);
    var r := ParseAnswer(input, ctx, llen);
    if r.Some? {
      var name := ParseLabel(input, ctx, llen).value;
      var atype := ReadU16(name.rest).value;
      var aclass := ReadU16(atype.rest).value;
      CodesBack(atype.value);
      CodesBack(aclass.value);
      RecordReceived(ReadU32(aclass.rest).value.rest, ctx, TypeOf(atype.value), llen);
    }
  }

  lemma {:induction false} QueriesReceived(n: nat, input: seq<byte>, ctx: seq<byte>, room: Option<nat>,
                                           llen: Option<nat>)
    ensures var r := ParseQueries(n, input, ctx, room, llen);
      r.Some? ==> |r.value.value| == n && RunQueries(r.value.value)
                  && forall q :: q in r.value.value ==> GoodQueryFields(q)
  {
    hide RunItems, ParseQuery, GoodQueryFields;
    if n > 0 {
      QueryReceived(input, ctx, llen);
      var q := ParseQuery(input, ctx, llen);
      if q.Some? && !Full(room) {
        QueriesReceived(n - 1, q.value.rest, ctx, Less(room), llen);
      }
    }
  }

  lemma {:induction false} AnswersReceived(n: nat, input: seq<byte>, ctx: seq<byte>, room: Option<nat>,
                                           llen: Option<nat>)
    ensures var r := ParseAnswers(n, input, ctx, room, llen);
      r.Some? ==> |r.value.value| == n && RunAnswers(r.value.value)
                  && forall a :: a in r.value.value ==> GoodAnswerFields(a)
  {
    hide RunAnswer, ParseAnswer, GoodAnswerFields;
    if n > 0 {
      AnswerReceived(input, ctx, llen);
      var a := ParseAnswer(input, ctx, llen);
      if a.Some? && !Full(room) {
        AnswersReceived(n - 1, a.value.rest, ctx, Less(room), llen);
      }
    }
  }

  /** Every packet that is accepted, whatever its octets, gives a message the program could write. */
  lemma MessageReceived(input: seq<byte>, caps: Caps)
    ensures var r := ParseMessage(input, caps);
      r.Some? ==> GoodFields(r.value.value) && RunNames(r.value.value)
  {
    hide ParseQueries, ParseAnswers, GoodQueryFields, GoodAnswerFields, RunQueries, RunAnswers, ReadU16, IsRequest;
    var h := ParseHead(input);
    if h.Some? {
      QueriesReceived(h.value.value.qdcount, h.value.rest, input, caps.qlen, caps.llen);
      var q := ParseQueries(h.value.value.qdcount, h.value.rest, input, caps.qlen, caps.llen);
      if q.Some? {
        AnswersReceived(h.value.value.ancount, q.value.rest, input, caps.alen, caps.llen);
      }
    }
  }

  lemma RunIsWhole(lab: Label)
    requires RunItems(lab.items)
    ensures WholeParts(lab.items) && Built(lab)
  {
  }

  lemma ReceivedWhole(m: Message<Label>)
    requires RunNames(m)
    ensures WholeMessage(m)
  {
    hide RunItems, WholeParts;
    forall q | q in m.queries
      ensures WholeParts(q.name.items)
    {
      RunIsWhole(q.name);
    }
    if m.Response? {
      forall a | a in m.answers
        ensures WholeAnswer(a)
      {
        assert RunAnswer(a);
        RunIsWhole(a.name);
        match a.record
        case RecPTR(name) => RunIsWhole(name);
        case RecSRV(_, _, _, target) => RunIsWhole(target);
        case _ =>
      }
    }
  }
}

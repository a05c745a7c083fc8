/** What a written message reads as, whatever its names do to each other. */
module Readings {
  import opened Bytes
  import opened Names
  import opened Writers
  import opened LabelParser
  import opened LabelWriter
  import opened NameTrip
  import opened Messages
  import opened MessageTrip
  import opened Standard

  // ---------------------------------------------------------------- the reading of a message

  function ReadQuery(q: Query<Label>, pos: nat, table: Table, limit: Option<nat>): Option<Query<Name>>
  {
    match Reading(q.name, pos, table, limit)
    case None => None
    case Some(n) => Some(Query(n, q.qtype, q.qclass))
  }

  function ReadRecord(r: Record<Label>, pos: nat, table: Table, limit: Option<nat>): Option<Record<Name>>
  {
    match r
    case RecA(v4) => Some(RecA(v4))
    case RecAAAA(v6) => Some(RecAAAA(v6))
    case RecTXT(text) => Some(RecTXT(text))
    case RecPTR(name) =>
      (match Reading(name, pos + 2, table, limit)
       case None => None
       case Some(n) => Some(RecPTR(n)))
    case RecSRV(priority, weight, port, target) =>
      (match Reading(target, pos + 8, table, limit)
       case None => None
       case Some(n) => Some(RecSRV(priority, weight, port, n)))
  }

  function ReadAnswer(a: Answer<Label>, pos: nat, table: Table, limit: Option<nat>): Option<Answer<Name>>
  {
    var e := EmitLabel(a.name, pos, table, limit);
    match Reading(a.name, pos, table, limit)
    case None => None
    case Some(n) =>
      match ReadRecord(a.record, pos + |e.bytes| + 8, e.table, limit)
      case None => None
      case Some(r) => Some(Answer(n, a.atype, a.aclass, a.ttl, r))
  }

  function ReadQueries(qs: seq<Query<Label>>, pos: nat, table: Table, limit: Option<nat>): Option<seq<Query<Name>>>
  {
    if qs == [] then Some([])
    else
      var e := EmitQuery(qs[0], pos, table, limit);
      match ReadQuery(qs[0], pos, table, limit)
      case None => None
      case Some(q) =>
        match ReadQueries(qs[1..], pos + |e.bytes|, e.table, limit)
        case None => None
        case Some(more) => Some([q] + more)
  }

  function ReadAnswers(xs: seq<Answer<Label>>, pos: nat, table: Table, limit: Option<nat>): Option<seq<Answer<Name>>>
  {
    if xs == [] then Some([])
    else
      var e := EmitAnswer(xs[0], pos, table, limit);
      match ReadAnswer(xs[0], pos, table, limit)
      case None => None
      case Some(a) =>
        match ReadAnswers(xs[1..], pos + |e.bytes|, e.table, limit)
        case None => None
        case Some(more) => Some([a] + more)
  }

  /** What the octets of a message mean, told from its names; nothing when they are rejected. */
  function ReadMessage(m: Message<Label>, limit: Option<nat>): Option<Message<Name>>
  {
    var e := EmitQueries(m.queries, 12, [], limit);
    match ReadQueries(m.queries, 12, [], limit)
    case None => None
    case Some(qs) =>
      match m
      case Request(id, flags, _) => Some(Request(id, flags, qs))
      case Response(id, flags, _, answers) =>
        match ReadAnswers(answers, 12 + |e.bytes|, e.table, limit)
        case None => None
        case Some(xs) => Some(Response(id, flags, qs, xs))
  }

  // ---------------------------------------------------------------- names

  /** The table is true of the packet, and all of it stands before `p`. */
  ghost predicate Sound(b: seq<byte>, table: Table, p: nat)
  {
    TableOk(b, table) && Below(table, p)
  }

  lemma SoundMore(b: seq<byte>, table: Table, p: nat, q: nat)
    requires Sound(b, table, p) && p <= q
    ensures Sound(b, table, q)
  {
    hide TableOk;
  }

  /** The parser gives what the reading says, or fails when it says so. */
  ghost predicate LabelAs(r: Option<Parsed<Label>>, n: Option<Name>, rest: seq<byte>)
  {
    match n
    case None => r == None
    case Some(segs) => r.Some? && Segs(r.value.value) == segs && r.value.rest == rest
  }

  lemma LabelStep(b: seq<byte>, lab: Label, p: nat, table: Table, limit: Option<nat>)
    requires Proper(lab) && Sound(b, table, p)
    requires var e := EmitLabel(lab, p, table, limit); At(b, p, e.bytes) && p + |e.bytes| <= REACH
    ensures var e, n := EmitLabel(lab, p, table, limit), Reading(lab, p, table, limit);
      && LabelAs(ParseLabel(b[p..], b, None), n, b[p + |e.bytes|..])
      && (n.Some? ==> Sound(b, e.table, p + |e.bytes|))
      && (n.Some? ==> NameAt(b, p, true) == Some(Spot(n.value, p + |e.bytes|)))
  {
    hide EmitLabel, Reading, ParseLabel, TableOk, Below, RunItems, WireSegs, ItemsSegs, NameRuns;
    LabelBelow(lab, p, table, limit);
    LabelMeans(b, lab, p, table, limit);
    assert |b[p + |EmitLabel(lab, p, table, limit).bytes|..]| == |b| - p - |EmitLabel(lab, p, table, limit).bytes|;
  }

  lemma WordIs(b: seq<byte>, p: nat, n: u16)
    requires At(b, p, Be16(n))
    ensures p + 2 <= |b| && Word(b, p) == n
  {
    assert b[p] == b[p..p + 2][0] && b[p + 1] == b[p..p + 2][1];
  }

  lemma LongIs(b: seq<byte>, p: nat, n: u32)
    requires At(b, p, Be32(n))
    ensures p + 4 <= |b| && Long(b, p) == n
  {
    AtSplit(b, p, Be16(n / 0x1_0000), Be16(n % 0x1_0000));
    WordIs(b, p, n / 0x1_0000);
    WordIs(b, p + 2, n % 0x1_0000);
  }

  /** Types and classes that come back are written with their assigned numbers. */
  lemma CodesNamed(t: QType, c: QClass)
    ensures TypeOf(TypeCode(t)) == t ==> TypeNamed(TypeCode(t)) == t
    ensures ClassOf(ClassCode(c)) == c ==> ClassNamed(ClassCode(c)) == c
  {
  }

  // ---------------------------------------------------------------- questions

  ghost predicate QueryAs(r: Option<Parsed<Query<Label>>>, v: Option<Query<Name>>, rest: seq<byte>)
  {
    match v
    case None => r == None
    case Some(q) => r.Some? && ViewQuery(r.value.value) == q && r.value.rest == rest
  }

  lemma QueryReads(b: seq<byte>, q: Query<Label>, p: nat, table: Table, limit: Option<nat>)
    requires GoodQueryFields(q) && Proper(q.name) && Sound(b, table, p)
    requires var e := EmitQuery(q, p, table, limit); At(b, p, e.bytes) && p + |e.bytes| <= REACH
    ensures var e, v := EmitQuery(q, p, table, limit), ReadQuery(q, p, table, limit);
      && QueryAs(ParseQuery(b[p..], b, None), v, b[p + |e.bytes|..])
      && (v.Some? ==> Sound(b, e.table, p + |e.bytes|))
      && (v.Some? ==> QuestionAt(b, p, true) == Some(Spot(v.value, p + |e.bytes|)))
  {
    hide EmitLabel, ParseLabel, Reading, Sound, Proper, Built, ItemsSegs, TypeOf, TypeCode, ClassOf, ClassCode,
      ReadU16, Be16, NameAt, Word, TypeNamed, ClassNamed;
    var e := EmitLabel(q.name, p, table, limit);
    var t, c := Be16(TypeCode(q.qtype)), Be16(ClassCode(q.qclass));
    AtSplit(b, p, e.bytes, t + c);
    LabelStep(b, q.name, p, table, limit);
    if Reading(q.name, p, table, limit).Some? {
      var m := p + |e.bytes|;
      AtSplit(b, m, t, c);
      ReadAt16(b, m, TypeCode(q.qtype));
      ReadAt16(b, m + 2, ClassCode(q.qclass));
      WordIs(b, m, TypeCode(q.qtype));
      WordIs(b, m + 2, ClassCode(q.qclass));
      CodesNamed(q.qtype, q.qclass);
      SoundMore(b, e.table, m, m + 4);
    }
  }

  ghost predicate QueriesAs(r: Option<Parsed<seq<Query<Label>>>>, v: Option<seq<Query<Name>>>, rest: seq<byte>)
  {
    match v
    case None => r == None
    case Some(qs) => r.Some? && ViewQueries(r.value.value) == qs && r.value.rest == rest
  }

  lemma ViewQueriesCons(q: Query<Label>, qs: seq<Query<Label>>)
    ensures ViewQueries([q] + qs) == [ViewQuery(q)] + ViewQueries(qs)
  {
    hide ViewQuery;
    assert ([q] + qs)[1..] == qs;
  }

  lemma {:induction false} QueriesReads(b: seq<byte>, qs: seq<Query<Label>>, p: nat, table: Table, limit: Option<nat>)
    requires GoodQueriesFields(qs) && (forall q :: q in qs ==> Proper(q.name)) && Sound(b, table, p)
    requires var e := EmitQueries(qs, p, table, limit); At(b, p, e.bytes) && p + |e.bytes| <= REACH
    ensures var e, v := EmitQueries(qs, p, table, limit), ReadQueries(qs, p, table, limit);
      && QueriesAs(ParseQueries(|qs|, b[p..], b, None, None), v, b[p + |e.bytes|..])
      && (v.Some? ==> Sound(b, e.table, p + |e.bytes|))
      && (v.Some? ==> QuestionsAt(b, p, |qs|, true) == Some(Spot(v.value, p + |e.bytes|)))
  {
    hide ParseQuery, EmitQuery, ReadQuery, QuestionAt, Sound, ViewQuery, GoodQueryFields, Proper, ViewQueries;
    if qs == [] {
      NoQueriesView();
    } else {
      var e := EmitQuery(qs[0], p, table, limit);
      var q := p + |e.bytes|;
      var more := EmitQueries(qs[1..], q, e.table, limit);
      AtSplit(b, p, e.bytes, more.bytes);
      QueryReads(b, qs[0], p, table, limit);
      if ReadQuery(qs[0], p, table, limit).Some? {
        QueriesReads(b, qs[1..], q, e.table, limit);
        var r := ParseQuery(b[p..], b, None);
        var rs := ParseQueries(|qs| - 1, r.value.rest, b, None, None);
        if rs.Some? {
          ViewQueriesCons(r.value.value, rs.value.value);
        }
      }
    }
  }

  lemma NoQueriesView()
    ensures ViewQueries([]) == [] && ViewAnswers([]) == []
  {
  }

  // ---------------------------------------------------------------- records

  ghost predicate RecordAs(r: Option<Parsed<Record<Label>>>, v: Option<Record<Name>>, rest: seq<byte>)
  {
    match v
    case None => r == None
    case Some(x) => r.Some? && ViewRecord(r.value.value) == x && r.value.rest == rest
  }

  lemma PtrReads(b: seq<byte>, name: Label, p: nat, table: Table, limit: Option<nat>)
    requires Proper(name) && Sound(b, table, p)
    requires var e := EmitRecord(RecPTR(name), p, table, limit); At(b, p, e.bytes) && p + |e.bytes| <= REACH
    ensures var e, v := EmitRecord(RecPTR(name), p, table, limit), ReadRecord(RecPTR(name), p, table, limit);
      && RecordAs(ParsePTR(b[p..], b, None), v, b[p + |e.bytes|..])
      && (v.Some? ==> Sound(b, e.table, p + |e.bytes|))
      && (v.Some? ==> RecordAt(b, p, PTR, true) == Some(Spot(v.value, p + |e.bytes|)))
  {
    hide EmitLabel, ParseLabel, Reading, Sound, Proper, ItemsSegs, ReadU16, Be16, NameAt, Word;
    var e := EmitLabel(name, p + 2, table, limit);
    AtSplit(b, p, Be16(|e.bytes|), e.bytes);
    assert b[p..][2..] == b[p + 2..];
    assert ReadU16(b[p..]).Some? && ReadU16(b[p..]).value.rest == b[p + 2..];
    WordIs(b, p, |e.bytes|);
    SoundMore(b, table, p, p + 2);
    LabelStep(b, name, p + 2, table, limit);
  }

  lemma SrvReads(b: seq<byte>, x: Record<Label>, p: nat, table: Table, limit: Option<nat>)
    requires x.RecSRV? && Proper(x.target) && Sound(b, table, p)
    requires var e := EmitRecord(x, p, table, limit); At(b, p, e.bytes) && p + |e.bytes| <= REACH
    ensures var e, v := EmitRecord(x, p, table, limit), ReadRecord(x, p, table, limit);
      && RecordAs(ParseSRV(b[p..], b, None), v, b[p + |e.bytes|..])
      && (v.Some? ==> Sound(b, e.table, p + |e.bytes|))
      && (v.Some? ==> RecordAt(b, p, SRV, true) == Some(Spot(v.value, p + |e.bytes|)))
  {
    hide EmitLabel, ParseLabel, Reading, Sound, Proper, ItemsSegs, ReadU16, Be16, NameAt, Word;
    var e := EmitLabel(x.target, p + 8, table, limit);
    var head := SrvHead(x.priority, x.weight, x.port);
    AtSplit(b, p, Be16(6 + |e.bytes|), head + e.bytes);
    AtSplit(b, p + 2, head, e.bytes);
    AtSplit(b, p + 2, Be16(x.priority) + Be16(x.weight), Be16(x.port));
    AtSplit(b, p + 2, Be16(x.priority), Be16(x.weight));
    assert b[p..][2..] == b[p + 2..];
    assert ReadU16(b[p..]).Some? && ReadU16(b[p..]).value.rest == b[p + 2..];
    ReadAt16(b, p + 2, x.priority);
    ReadAt16(b, p + 4, x.weight);
    ReadAt16(b, p + 6, x.port);
    WordIs(b, p, 6 + |e.bytes|);
    WordIs(b, p + 2, x.priority);
    WordIs(b, p + 4, x.weight);
    WordIs(b, p + 6, x.port);
    SoundMore(b, table, p, p + 8);
    LabelStep(b, x.target, p + 8, table, limit);
  }

  lemma CountedIs(b: seq<byte>, p: nat, data: seq<byte>)
    requires |data| < 0x1_0000 && At(b, p, Be16(|data|) + data)
    ensures ReadCounted(b[p..]) == Some(Parsed(data, b[p + 2 + |data|..]))
    ensures p + 2 <= |b| && Word(b, p) == |data|
    ensures p + 2 + |data| <= |b| && b[p + 2..p + 2 + |data|] == data
  {
    hide Be16, Word, ReadCounted;
    CountedBack(b, p, data);
    AtSplit(b, p, Be16(|data|), data);
    WordIs(b, p, |data|);
  }

  lemma RecordReads(b: seq<byte>, t: QType, x: Record<Label>, p: nat, table: Table, limit: Option<nat>)
    requires GoodRecordFields(t, x) && ProperRecord(x) && Sound(b, table, p)
    requires var e := EmitRecord(x, p, table, limit); At(b, p, e.bytes) && p + |e.bytes| <= REACH
    ensures var e, v := EmitRecord(x, p, table, limit), ReadRecord(x, p, table, limit);
      && RecordAs(ParseRecord(b[p..], b, t, None), v, b[p + |e.bytes|..])
      && (v.Some? ==> Sound(b, e.table, p + |e.bytes|))
      && (v.Some? ==> RecordAt(b, p, t, true) == Some(Spot(v.value, p + |e.bytes|)))
  {
    hide EmitLabel, Reading, Sound, Built, Proper, ItemsSegs, ReadCounted, Be16, ParsePTR, ParseSRV, Utf8, NameAt, Word;
    SoundMore(b, table, p, p + |EmitRecord(x, p, table, limit).bytes|);
    match x
    case RecA(v4) => CountedIs(b, p, v4);
    case RecAAAA(v6) => CountedIs(b, p, v6);
    case RecPTR(name) => PtrReads(b, name, p, table, limit);
    case RecTXT(text) => CountedIs(b, p, text);
    case RecSRV(_, _, _, _) => SrvReads(b, x, p, table, limit);
  }

  // ---------------------------------------------------------------- answers

  ghost predicate AnswerAs(r: Option<Parsed<Answer<Label>>>, v: Option<Answer<Name>>, rest: seq<byte>)
  {
    match v
    case None => r == None
    case Some(a) => r.Some? && ViewAnswer(r.value.value) == a && r.value.rest == rest
  }

  lemma HeadIs(b: seq<byte>, a: Answer<Label>, m: nat)
    requires At(b, m, AnswerHead(a))
    ensures m + 8 <= |b|
    ensures Word(b, m) == TypeCode(a.atype) && Word(b, m + 2) == ClassCode(a.aclass) && Long(b, m + 4) == a.ttl
  {
    hide Be16, Be32, Word, Long, TypeCode, ClassCode;
    var t, c, l := Be16(TypeCode(a.atype)), Be16(ClassCode(a.aclass)), Be32(a.ttl);
    AtSplit(b, m, t + c, l);
    AtSplit(b, m, t, c);
    WordIs(b, m, TypeCode(a.atype));
    WordIs(b, m + 2, ClassCode(a.aclass));
    LongIs(b, m + 4, a.ttl);
  }

  lemma AnswerReads(b: seq<byte>, a: Answer<Label>, p: nat, table: Table, limit: Option<nat>)
    requires GoodAnswerFields(a) && ProperAnswer(a) && Sound(b, table, p)
    requires var e := EmitAnswer(a, p, table, limit); At(b, p, e.bytes) && p + |e.bytes| <= REACH
    ensures var e, v := EmitAnswer(a, p, table, limit), ReadAnswer(a, p, table, limit);
      && AnswerAs(ParseAnswer(b[p..], b, None), v, b[p + |e.bytes|..])
      && (v.Some? ==> Sound(b, e.table, p + |e.bytes|))
      && (v.Some? ==> AnswerAt(b, p, true) == Some(Spot(v.value, p + |e.bytes|)))
  {
    hide EmitLabel, ParseLabel, Reading, Sound, Proper, ProperRecord, Built, ItemsSegs, TypeOf, TypeCode, ClassOf,
      ClassCode, ReadU16, ReadU32, AnswerHead, EmitRecord, ParseRecord, ReadRecord, ViewRecord, GoodRecordFields,
      NameAt, RecordAt, Word, Long, TypeNamed, ClassNamed;
    var e := EmitLabel(a.name, p, table, limit);
    var m := p + |e.bytes|;
    var x := EmitRecord(a.record, m + 8, e.table, limit);
    AtSplit(b, p, e.bytes, AnswerHead(a) + x.bytes);
    AtSplit(b, m, AnswerHead(a), x.bytes);
    LabelStep(b, a.name, p, table, limit);
    if Reading(a.name, p, table, limit).Some? {
      HeadBack(b, a, m);
      HeadIs(b, a, m);
      RecordType(a.atype, a.record);
      CodesNamed(a.atype, a.aclass);
      SoundMore(b, e.table, m, m + 8);
      RecordReads(b, a.atype, a.record, m + 8, e.table, limit);
    }
  }

  ghost predicate AnswersAs(r: Option<Parsed<seq<Answer<Label>>>>, v: Option<seq<Answer<Name>>>, rest: seq<byte>)
  {
    match v
    case None => r == None
    case Some(xs) => r.Some? && ViewAnswers(r.value.value) == xs && r.value.rest == rest
  }

  lemma ViewAnswersCons(a: Answer<Label>, xs: seq<Answer<Label>>)
    ensures ViewAnswers([a] + xs) == [ViewAnswer(a)] + ViewAnswers(xs)
  {
    hide ViewAnswer;
    assert ([a] + xs)[1..] == xs;
  }

  lemma {:induction false} AnswersReads(b: seq<byte>, xs: seq<Answer<Label>>, p: nat, table: Table, limit: Option<nat>)
    requires GoodAnswersFields(xs) && (forall a :: a in xs ==> ProperAnswer(a)) && Sound(b, table, p)
    requires var e := EmitAnswers(xs, p, table, limit); At(b, p, e.bytes) && p + |e.bytes| <= REACH
    ensures var e, v := EmitAnswers(xs, p, table, limit), ReadAnswers(xs, p, table, limit);
      && AnswersAs(ParseAnswers(|xs|, b[p..], b, None, None), v, b[p + |e.bytes|..])
      && (v.Some? ==> Sound(b, e.table, p + |e.bytes|))
      && (v.Some? ==> AnswersAt(b, p, |xs|, true) == Some(Spot(v.value, p + |e.bytes|)))
  {
    hide ParseAnswer, EmitAnswer, ReadAnswer, AnswerAt, Sound, ViewAnswer, GoodAnswerFields, ProperAnswer, ViewAnswers;
    if xs == [] {
      NoQueriesView();
    } else {
      var e := EmitAnswer(xs[0], p, table, limit);
      var q := p + |e.bytes|;
      var more := EmitAnswers(xs[1..], q, e.table, limit);
      AtSplit(b, p, e.bytes, more.bytes);
      AnswerReads(b, xs[0], p, table, limit);
      if ReadAnswer(xs[0], p, table, limit).Some? {
        AnswersReads(b, xs[1..], q, e.table, limit);
        var r := ParseAnswer(b[p..], b, None);
        var rs := ParseAnswers(|xs| - 1, r.value.rest, b, None, None);
        if rs.Some? {
          ViewAnswersCons(r.value.value, rs.value.value);
        }
      }
    }
  }

  // ---------------------------------------------------------------- messages

  /** The parser gives a message that means `v`, or fails when there is none. */
  ghost predicate MessageAs(r: Option<Parsed<Message<Label>>>, v: Option<Message<Name>>, rest: seq<byte>)
  {
    match v
    case None => r == None
    case Some(m) => r.Some? && View(r.value.value) == m && r.value.rest == rest
  }

  lemma HeaderIs(b: seq<byte>, m: Message<Label>)
    requires GoodFields(m) && At(b, 0, Header(m))
    ensures |b| >= 12 && Word(b, 0) == m.id && Word(b, 2) == m.flags && Word(b, 4) == |m.queries|
    ensures m.Response? ==> Word(b, 6) == |m.answers|
    ensures Octet(b, 2) < 128 <==> m.Request?
  {
    hide Be16, GoodQueryFields, GoodAnswerFields;
    var an := if m.Response? then |m.answers| else 0;
    var w1, w2, w3, w4, z := Be16(m.id), Be16(m.flags), Be16(|m.queries|), Be16(an), Be16(0);
    AtSplit(b, 0, w1 + w2 + w3 + w4 + z, z);
    AtSplit(b, 0, w1 + w2 + w3 + w4, z);
    AtSplit(b, 0, w1 + w2 + w3, w4);
    AtSplit(b, 0, w1 + w2, w3);
    AtSplit(b, 0, w1, w2);
    WordIs(b, 0, m.id);
    WordIs(b, 2, m.flags);
    WordIs(b, 4, |m.queries|);
    WordIs(b, 6, an);
  }

  lemma NothingSound(b: seq<byte>)
    ensures Sound(b, [], 12)
  {
  }

  /**
   What any written message reads as, exactly. Whether its names clash or not, a message with proper
   fields and proper names, within pointer reach, is read from its octets as `ReadMessage` says, and
   rejected just when `ReadMessage` says nothing; a strict receiver reads the same; and every entry of
   the table reads as the name it denotes, in any packet that starts with those octets.
   */
  lemma MessageReads(b: seq<byte>, m: Message<Label>, limit: Option<nat>)
    requires GoodFields(m) && ProperNames(m)
    requires At(b, 0, Serialize(m, limit)) && |Serialize(m, limit)| <= REACH
    ensures MessageAs(ParseMessage(b, GROWING), ReadMessage(m, limit), b[|Serialize(m, limit)|..])
    ensures ReadMessage(m, limit).Some? ==>
              && MessageAt(b, true) == Some(Spot(ReadMessage(m, limit).value, |Serialize(m, limit)|))
              && TableOk(b, EmitMessage(m, limit).table)
  {
    hide QuestionsAt, AnswersAt, Word, Octet, ParseQueries, ParseAnswers, EmitQueries, EmitAnswers, ReadQueries,
      ReadAnswers, ViewQueries, ViewAnswers, TableOk, Header, ParseHead, ReadU16, GoodQueriesFields, GoodAnswersFields,
      IsRequest, Proper, ProperAnswer, Below;
    var q := EmitQueries(m.queries, 12, [], limit);
    var a := if m.Response? then EmitAnswers(m.answers, 12 + |q.bytes|, q.table, limit) else Written([], q.table);
    assert q.bytes + [] == q.bytes;
    assert Serialize(m, limit) == Header(m) + (q.bytes + a.bytes);
    AtSplit(b, 0, Header(m), q.bytes + a.bytes);
    AtSplit(b, 12, q.bytes, a.bytes);
    HeaderBack(b, m);
    HeaderIs(b, m);
    NothingSound(b);
    QueriesReads(b, m.queries, 12, [], limit);
    if m.Response? && ReadQueries(m.queries, 12, [], limit).Some? {
      AnswersReads(b, m.answers, 12 + |q.bytes|, q.table, limit);
    }
  }

  /** So the condition for the round trip is just that every name reads as itself. */
  lemma GoodIsFaithful(m: Message<Label>, limit: Option<nat>)
    requires GoodFields(m) && ProperNames(m) && |Serialize(m, limit)| <= REACH
    ensures GoodNames(m, limit) <==> ReadMessage(m, limit) == Some(View(m))
  {
    hide Serialize, ParseMessage, ReadMessage, View, GoodFields, ProperNames, GoodNames, EmitMessage;
    var b := Serialize(m, limit);
    Itself(b);
    MessageTrip.MessageTrip(b, m, limit);
    MessageReads(b, m, limit);
  }
}

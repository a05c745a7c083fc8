/** Requests and responses, what writing them emits, and how they are parsed. */
module Messages {
  import opened Bytes
  import opened Names
  import opened Writers
  import opened LabelParser
  import opened LabelWriter

  datatype QType = A | AAAA | PTR | TXT | SRV | Any | Unknown(code: u16)
  datatype QClass = IN | Multicast | Other(code: u16)

  type Octets4 = s: seq<byte> | |s| == 4 witness [0, 0, 0, 0]
  type Octets16 = s: seq<byte> | |s| == 16 witness seq(16, _ => 0)

  // `N` is the type of names: labels in a message, segments in what the message means.

  datatype Query<N> = Query(name: N, qtype: QType, qclass: QClass)

  datatype Record<N> =
    | RecA(v4: Octets4)
    | RecAAAA(v6: Octets16)
    | RecPTR(name: N)
    | RecTXT(text: seq<byte>)
    | RecSRV(priority: u16, weight: u16, port: u16, target: N)

  datatype Answer<N> = Answer(name: N, atype: QType, aclass: QClass, ttl: u32, record: Record<N>)

  datatype Message<N> =
    | Request(id: u16, flags: u16, queries: seq<Query<N>>)
    | Response(id: u16, flags: u16, queries: seq<Query<N>>, answers: seq<Answer<N>>)

  function TypeOf(code: u16): QType
  {
    match code
    case 1 => A
    case 28 => AAAA
    case 12 => PTR
    case 16 => TXT
    case 33 => SRV
    case 255 => Any
    case _ => Unknown(code)
  }

  function TypeCode(t: QType): u16
  {
    match t
    case A => 1
    case AAAA => 28
    case PTR => 12
    case TXT => 16
    case SRV => 33
    case Any => 255
    case Unknown(code) => code
  }

  function ClassOf(code: u16): QClass
  {
    match code
    case 1 => IN
    case 32769 => Multicast
    case _ => Other(code)
  }

  function ClassCode(c: QClass): u16
  {
    match c
    case IN => 1
    case Multicast => 32769
    case Other(code) => code
  }

  const QR: nat := 0x8000

  /** The QR bit of the flags word tells requests from responses. */
  predicate IsRequest(flags: u16)
  {
    flags / QR % 2 == 0
  }

  // ---------------------------------------------------------------- meaning

  function ViewQuery(q: Query<Label>): Query<Name>
  {
    Query(Segs(q.name), q.qtype, q.qclass)
  }

  function ViewRecord(r: Record<Label>): Record<Name>
  {
    match r
    case RecA(v4) => RecA(v4)
    case RecAAAA(v6) => RecAAAA(v6)
    case RecPTR(name) => RecPTR(Segs(name))
    case RecTXT(text) => RecTXT(text)
    case RecSRV(priority, weight, port, target) => RecSRV(priority, weight, port, Segs(target))
  }

  function ViewAnswer(a: Answer<Label>): Answer<Name>
  {
    Answer(Segs(a.name), a.atype, a.aclass, a.ttl, ViewRecord(a.record))
  }

  function ViewQueries(qs: seq<Query<Label>>): seq<Query<Name>>
  {
    if qs == [] then [] else [ViewQuery(qs[0])] + ViewQueries(qs[1..])
  }

  function ViewAnswers(xs: seq<Answer<Label>>): seq<Answer<Name>>
  {
    if xs == [] then [] else [ViewAnswer(xs[0])] + ViewAnswers(xs[1..])
  }

  /** What a message means: equal views are what `==` on messages compares. */
  function View(m: Message<Label>): Message<Name>
  {
    match m
    case Request(id, flags, queries) => Request(id, flags, ViewQueries(queries))
    case Response(id, flags, queries, answers) => Response(id, flags, ViewQueries(queries), ViewAnswers(answers))
  }

  lemma {:induction false} ViewAnswersAt(xs: seq<Answer<Label>>)
    ensures |ViewAnswers(xs)| == |xs|
    ensures forall i :: 0 <= i < |xs| ==> ViewAnswers(xs)[i] == ViewAnswer(xs[i])
  {
    hide ViewAnswer;
    if xs != [] {
      ViewAnswersAt(xs[1..]);
    }
  }

  lemma {:induction false} ViewQueriesAt(qs: seq<Query<Label>>)
    ensures |ViewQueries(qs)| == |qs|
    ensures forall i :: 0 <= i < |qs| ==> ViewQueries(qs)[i] == ViewQuery(qs[i])
  {
    hide ViewQuery;
    if qs != [] {
      ViewQueriesAt(qs[1..]);
    }
  }

  // ---------------------------------------------------------------- labels that can be iterated

  predicate WholeRecord(x: Record<Label>)
  {
    (x.RecPTR? ==> WholeParts(x.name.items)) && (x.RecSRV? ==> WholeParts(x.target.items))
  }

  predicate WholeAnswer(a: Answer<Label>)
  {
    WholeParts(a.name.items) && WholeRecord(a.record)
  }

  predicate WholeMessage(m: Message<Label>)
  {
    && (forall q :: q in m.queries ==> WholeParts(q.name.items))
    && (m.Response? ==> forall a :: a in m.answers ==> WholeAnswer(a))
  }

  // ---------------------------------------------------------------- messages the program builds

  predicate GoodQueryFields(q: Query<Label>)
  {
    Built(q.name) && TypeOf(TypeCode(q.qtype)) == q.qtype && ClassOf(ClassCode(q.qclass)) == q.qclass
  }

  predicate GoodRecordFields(atype: QType, r: Record<Label>)
  {
    match r
    case RecA(_) => atype == A
    case RecAAAA(_) => atype == AAAA
    case RecPTR(name) => atype == PTR && Built(name)
    case RecTXT(text) => atype == TXT && Utf8(text) && |text| < 0x1_0000
    case RecSRV(_, _, _, target) => atype == SRV && Built(target)
  }

  predicate GoodAnswerFields(a: Answer<Label>)
  {
    Built(a.name) && ClassOf(ClassCode(a.aclass)) == a.aclass && GoodRecordFields(a.atype, a.record)
  }

  predicate GoodQueriesFields(qs: seq<Query<Label>>)
  {
    |qs| < 0x1_0000 && forall q :: q in qs ==> GoodQueryFields(q)
  }

  predicate GoodAnswersFields(xs: seq<Answer<Label>>)
  {
    |xs| < 0x1_0000 && forall x :: x in xs ==> GoodAnswerFields(x)
  }

  /** The fields fit the wire: normal types, records of their type, counts and lengths in range. */
  predicate GoodFields(m: Message<Label>)
  {
    && GoodQueriesFields(m.queries)
    && (m.Request? <==> IsRequest(m.flags))
    && (m.Response? ==> GoodAnswersFields(m.answers))
  }

  // ---------------------------------------------------------------- proper names

  predicate ProperRecord(r: Record<Label>)
  {
    match r
    case RecPTR(name) => Proper(name)
    case RecSRV(_, _, _, target) => Proper(target)
    case _ => true
  }

  predicate ProperAnswer(a: Answer<Label>)
  {
    Proper(a.name) && ProperRecord(a.record)
  }

  /** Every name of the message is proper. */
  predicate ProperNames(m: Message<Label>)
  {
    && (forall q :: q in m.queries ==> Proper(q.name))
    && (m.Response? ==> forall a :: a in m.answers ==> ProperAnswer(a))
  }

  // ---------------------------------------------------------------- writing

  datatype Written = Written(bytes: seq<byte>, table: Table)

  function EmitQuery(q: Query<Label>, pos: nat, table: Table, limit: Option<nat>): Written
  {
    var e := EmitLabel(q.name, pos, table, limit);
    Written(e.bytes + (Be16(TypeCode(q.qtype)) + Be16(ClassCode(q.qclass))), e.table)
  }

  /** A record with its RDLENGTH in front. */
  function EmitRecord(r: Record<Label>, pos: nat, table: Table, limit: Option<nat>): Written
  {
    match r
    case RecA(v4) => Written(Be16(4) + v4, table)
    case RecAAAA(v6) => Written(Be16(16) + v6, table)
    case RecPTR(name) =>
      var e := EmitLabel(name, pos + 2, table, limit);
      Written(Be16(|e.bytes|) + e.bytes, e.table)
    case RecTXT(text) => Written(Be16(|text|) + text, table)
    case RecSRV(priority, weight, port, target) =>
      var e := EmitLabel(target, pos + 8, table, limit);
      Written(Be16(6 + |e.bytes|) + (SrvHead(priority, weight, port) + e.bytes), e.table)
  }

  function SrvHead(priority: u16, weight: u16, port: u16): (b: seq<byte>)
    ensures |b| == 6
  {
    Be16(priority) + Be16(weight) + Be16(port)
  }

  function AnswerHead(a: Answer<Label>): (b: seq<byte>)
    ensures |b| == 8
  {
    Be16(TypeCode(a.atype)) + Be16(ClassCode(a.aclass)) + Be32(a.ttl)
  }

  function EmitAnswer(a: Answer<Label>, pos: nat, table: Table, limit: Option<nat>): Written
  {
    var e := EmitLabel(a.name, pos, table, limit);
    var r := EmitRecord(a.record, pos + |e.bytes| + 8, e.table, limit);
    Written(e.bytes + (AnswerHead(a) + r.bytes), r.table)
  }

  function EmitQueries(qs: seq<Query<Label>>, pos: nat, table: Table, limit: Option<nat>): Written
  {
    if qs == [] then Written([], table)
    else
      var e := EmitQuery(qs[0], pos, table, limit);
      var r := EmitQueries(qs[1..], pos + |e.bytes|, e.table, limit);
      Written(e.bytes + r.bytes, r.table)
  }

  function EmitAnswers(xs: seq<Answer<Label>>, pos: nat, table: Table, limit: Option<nat>): Written
  {
    if xs == [] then Written([], table)
    else
      var e := EmitAnswer(xs[0], pos, table, limit);
      var r := EmitAnswers(xs[1..], pos + |e.bytes|, e.table, limit);
      Written(e.bytes + r.bytes, r.table)
  }

  function Header(m: Message<Label>): (b: seq<byte>)
    ensures |b| == 12
  {
    Be16(m.id) + Be16(m.flags) + Be16(|m.queries|) + Be16(if m.Response? then |m.answers| else 0) + Be16(0) + Be16(0)
  }

  /** The octets of a message on a buffer that has room for them. */
  function EmitMessage(m: Message<Label>, limit: Option<nat>): Written
  {
    var q := EmitQueries(m.queries, 12, [], limit);
    if m.Request? then Written(Header(m) + q.bytes, q.table)
    else
      var a := EmitAnswers(m.answers, 12 + |q.bytes|, q.table, limit);
      Written(Header(m) + (q.bytes + a.bytes), a.table)
  }

  function Serialize(m: Message<Label>, limit: Option<nat>): seq<byte>
  {
    EmitMessage(m, limit).bytes
  }

  // ---------------------------------------------------------------- parsing

  /** Capacities of the lists a parser fills; `None` is a list that grows. */
  datatype Caps = Caps(qlen: Option<nat>, alen: Option<nat>, llen: Option<nat>)

  const GROWING: Caps := Caps(None, None, None)

  function ParseQuery(input: seq<byte>, ctx: seq<byte>, llen: Option<nat>): Option<Parsed<Query<Label>>>
  {
    match ParseLabel(input, ctx, llen)
    case None => None
    case Some(name) =>
      match ReadU16(name.rest)
      case None => None
      case Some(qtype) =>
        match ReadU16(qtype.rest)
        case None => None
        case Some(qclass) =>
          Some(Parsed(Query(name.value, TypeOf(qtype.value), ClassOf(qclass.value)), qclass.rest))
  }

  /** A length and as many octets as it says. */
  function ReadCounted(input: seq<byte>): Option<Parsed<seq<byte>>>
  {
    match ReadU16(input)
    case None => None
    case Some(len) => Take(len.value, len.rest)
  }

  function ParsePTR(input: seq<byte>, ctx: seq<byte>, llen: Option<nat>): Option<Parsed<Record<Label>>>
  {
    match ReadU16(input)
    case None => None
    case Some(len) =>
      match ParseLabel(len.rest, ctx, llen)
      case None => None
      case Some(name) => Some(Parsed(RecPTR(name.value), name.rest))
  }

  function ParseSRV(input: seq<byte>, ctx: seq<byte>, llen: Option<nat>): Option<Parsed<Record<Label>>>
  {
    match ReadU16(input)
    case None => None
    case Some(len) =>
      match ReadU16(len.rest)
      case None => None
      case Some(priority) =>
        match ReadU16(priority.rest)
        case None => None
        case Some(weight) =>
          match ReadU16(weight.rest)
          case None => None
          case Some(port) =>
            match ParseLabel(port.rest, ctx, llen)
            case None => None
            case Some(target) =>
              Some(Parsed(RecSRV(priority.value, weight.value, port.value, target.value), target.rest))
  }

  function ParseA(input: seq<byte>): Option<Parsed<Record<Label>>>
  {
    match ReadCounted(input)
    case None => None
    case Some(addr) => if |addr.value| == 4 then Some(Parsed(RecA(addr.value), addr.rest)) else None
  }

  function ParseAAAA(input: seq<byte>): Option<Parsed<Record<Label>>>
  {
    match ReadCounted(input)
    case None => None
    case Some(addr) => if |addr.value| == 16 then Some(Parsed(RecAAAA(addr.value), addr.rest)) else None
  }

  function ParseTXT(input: seq<byte>): Option<Parsed<Record<Label>>>
  {
    match ReadCounted(input)
    case None => None
    case Some(text) => if Utf8(text.value) then Some(Parsed(RecTXT(text.value), text.rest)) else None
  }

  function ParseRecord(input: seq<byte>, ctx: seq<byte>, t: QType, llen: Option<nat>): Option<Parsed<Record<Label>>>
  {
    match t
    case A => ParseA(input)
    case AAAA => ParseAAAA(input)
    case PTR => ParsePTR(input, ctx, llen)
    case TXT => ParseTXT(input)
    case SRV => ParseSRV(input, ctx, llen)
    case Any => None
    case Unknown(_) => None
  }

  function ParseAnswer(input: seq<byte>, ctx: seq<byte>, llen: Option<nat>): Option<Parsed<Answer<Label>>>
  {
    match ParseLabel(input, ctx, llen)
    case None => None
    case Some(name) =>
      match ReadU16(name.rest)
      case None => None
      case Some(atype) =>
        match ReadU16(atype.rest)
        case None => None
        case Some(aclass) =>
          match ReadU32(aclass.rest)
          case None => None
          case Some(ttl) =>
            match ParseRecord(ttl.rest, ctx, TypeOf(atype.value), llen)
            case None => None
            case Some(record) =>
              Some(Parsed(Answer(name.value, TypeOf(atype.value), ClassOf(aclass.value), ttl.value, record.value),
                          record.rest))
  }

  /** The counted loop over questions; `room` is what the list still takes. */
  function ParseQueries(n: nat, input: seq<byte>, ctx: seq<byte>, room: Option<nat>, llen: Option<nat>)
    : Option<Parsed<seq<Query<Label>>>>
  {
    if n == 0 then Some(Parsed([], input))
    else
      match ParseQuery(input, ctx, llen)
      case None => None
      case Some(q) =>
        if Full(room) then None
        else
          match ParseQueries(n - 1, q.rest, ctx, Less(room), llen)
          case None => None
          case Some(more) => Some(Parsed([q.value] + more.value, more.rest))
  }

  function ParseAnswers(n: nat, input: seq<byte>, ctx: seq<byte>, room: Option<nat>, llen: Option<nat>)
    : Option<Parsed<seq<Answer<Label>>>>
  {
    if n == 0 then Some(Parsed([], input))
    else
      match ParseAnswer(input, ctx, llen)
      case None => None
      case Some(a) =>
        if Full(room) then None
        else
          match ParseAnswers(n - 1, a.rest, ctx, Less(room), llen)
          case None => None
          case Some(more) => Some(Parsed([a.value] + more.value, more.rest))
  }

  datatype Head = Head(id: u16, flags: u16, qdcount: u16, ancount: u16)

  function ParseHead(input: seq<byte>): Option<Parsed<Head>>
  {
    if |input| < 12 then None
    else
      Some(Parsed(Head(ReadU16(input).value.value, ReadU16(input[2..]).value.value,
                       ReadU16(input[4..]).value.value, ReadU16(input[6..]).value.value), input[12..]))
  }

  function ParseRequest(input: seq<byte>, caps: Caps): Option<Parsed<Message<Label>>>
  {
    match ParseHead(input)
    case None => None
    case Some(h) =>
      match ParseQueries(h.value.qdcount, h.rest, input, caps.qlen, caps.llen)
      case None => None
      case Some(q) => Some(Parsed(Request(h.value.id, h.value.flags, q.value), q.rest))
  }

  function ParseResponse(input: seq<byte>, caps: Caps): Option<Parsed<Message<Label>>>
  {
    match ParseHead(input)
    case None => None
    case Some(h) =>
      match ParseQueries(h.value.qdcount, h.rest, input, caps.qlen, caps.llen)
      case None => None
      case Some(q) =>
        match ParseAnswers(h.value.ancount, q.rest, input, caps.alen, caps.llen)
        case None => None
        case Some(a) => Some(Parsed(Response(h.value.id, h.value.flags, q.value, a.value), a.rest))
  }

  function ParseMessage(input: seq<byte>, caps: Caps): Option<Parsed<Message<Label>>>
  {
    if |input| < 4 then None
    else if IsRequest(ReadU16(input[2..]).value.value) then ParseRequest(input, caps)
    else ParseResponse(input, caps)
  }
}

/** Messages through a bounded buffer, and the counted loops that read them. */
module MessageIO {
  import opened Bytes
  import opened Names
  import opened Writers
  import opened LabelParser
  import opened LabelWriter
  import opened Messages

  // ---------------------------------------------------------------- reservations

  /** Where the RDLENGTH reservation of a record ends; 0 for records without one. */
  function RecordReserve(r: Record<Label>, pos: nat): nat
  {
    if r.RecPTR? || r.RecSRV? then pos + 2 else 0
  }

  function Max(a: nat, b: nat): nat
  {
    if a < b then b else a
  }

  function AnswerReserve(a: Answer<Label>, pos: nat, table: Table, limit: Option<nat>): nat
  {
    RecordReserve(a.record, pos + |EmitLabel(a.name, pos, table, limit).bytes| + 8)
  }

  /** Where the last RDLENGTH reservation ends. */
  function AnswersReserve(xs: seq<Answer<Label>>, pos: nat, table: Table, limit: Option<nat>): nat
  {
    if xs == [] then 0
    else
      var e := EmitAnswer(xs[0], pos, table, limit);
      Max(AnswerReserve(xs[0], pos, table, limit), AnswersReserve(xs[1..], pos + |e.bytes|, e.table, limit))
  }

  function MessageReserve(m: Message<Label>, limit: Option<nat>): nat
  {
    var q := EmitQueries(m.queries, 12, [], limit);
    if m.Request? then 0 else AnswersReserve(m.answers, 12 + |q.bytes|, q.table, limit)
  }

  // ---------------------------------------------------------------- writing

  method SerializeQuery(q: Query<Label>, w: Writer)
    requires w.Valid() && WholeParts(q.name.items)
    modifies w, w.output
    ensures w.Valid() && w.Advanced()
    ensures var e := EmitQuery(q, |old(w.ideal)|, old(w.table), w.limit);
      w.ideal == old(w.ideal) + e.bytes && w.table == e.table
  {
    hide EmitLabel, Be16, TypeCode, ClassCode;
    SerializeLabel(q.name, w);
    w.Write(Be16(TypeCode(q.qtype)));
    w.Write(Be16(ClassCode(q.qclass)));
  }

  const USIZE: nat := 0x1_0000_0000_0000_0000

  /** `distance - 2` on `usize`, wrapping as an unchecked build does. */
  function LessTwo(distance: nat): nat
  {
    (distance + USIZE - 2) % USIZE
  }

  /**
   The end of a record: go back to the reservation and fill in how much was written since.
   `underflow` tells that the subtraction went below zero, which a checked build turns into a panic.
   */
  method FillLength(r: Reservation, w: Writer, ghost start: seq<byte>, ghost rest: seq<byte>) returns (underflow: bool)
    requires w.Valid() && w.output.Length < USIZE
    requires r.len == 2 && r.start <= w.position && (!w.overflow ==> r.start == |start|)
    requires |w.ideal| == |start| + 2 + |rest| && w.ideal[..|start|] == start && w.ideal[|start| + 2..] == rest
    modifies w, w.output
    ensures w.Valid() && w.Advanced()
    ensures w.ideal == start + (Be16(|rest|) + rest) && w.table == old(w.table)
    ensures underflow <==> old(w.position) - r.start < 2
  {
    hide Be16;
    var distance := w.DistanceFromReservation(r);
    underflow := distance < 2;
    w.WriteReservation(r, Be16(LessTwo(distance)), |start|);
    Patched(w.ideal, start, Be16(LessTwo(distance)), rest);
    w.Settle(start + (Be16(|rest|) + rest), w.table);
  }

  /** PTR: reserve RDLENGTH, write the name, go back and fill the length in. */
  method SerializePTR(name: Label, w: Writer) returns (underflow: bool)
    requires w.Valid() && WholeParts(name.items) && w.output.Length < USIZE
    modifies w, w.output
    ensures w.Valid() && w.Advanced()
    ensures var e := EmitRecord(RecPTR(name), |old(w.ideal)|, old(w.table), w.limit);
      w.ideal == old(w.ideal) + e.bytes && w.table == e.table
    ensures underflow <==> RecordReserve(RecPTR(name), |old(w.ideal)|) > w.output.Length
  {
    hide EmitLabel, Be16;
    ghost var start := w.ideal;
    ghost var e := EmitLabel(name, |w.ideal| + 2, w.table, w.limit);
    var r := w.Reserve(2);
    SerializeLabel(name, w);
    underflow := FillLength(r, w, start, e.bytes);
  }

  lemma Patched(after: seq<byte>, start: seq<byte>, len: seq<byte>, rest: seq<byte>)
    requires |len| == 2 && |after| == |start| + 2 + |rest|
    requires after[..|start|] == start && after[|start|..|start| + 2] == len && after[|start| + 2..] == rest
    ensures after == start + (len + rest)
  {
    assert after == after[..|start|] + (after[|start|..|start| + 2] + after[|start| + 2..]);
  }

  /** The fixed fields of an SRV record. */
  method SerializeSrvHead(x: Record<Label>, w: Writer)
    requires x.RecSRV? && w.Valid()
    modifies w, w.output
    ensures w.Valid() && w.Advanced()
    ensures w.ideal == old(w.ideal) + SrvHead(x.priority, x.weight, x.port) && w.table == old(w.table)
  {
    hide Be16;
    ghost var gap := w.ideal;
    w.Write(Be16(x.priority));
    w.Write(Be16(x.weight));
    w.Write(Be16(x.port));
    assert w.ideal == gap + (Be16(x.priority) + Be16(x.weight) + Be16(x.port));
  }

  method SerializeSRV(x: Record<Label>, w: Writer) returns (underflow: bool)
    requires x.RecSRV? && w.Valid() && WholeParts(x.target.items) && w.output.Length < USIZE
    modifies w, w.output
    ensures w.Valid() && w.Advanced()
    ensures var e := EmitRecord(x, |old(w.ideal)|, old(w.table), w.limit);
      w.ideal == old(w.ideal) + e.bytes && w.table == e.table
    ensures underflow <==> RecordReserve(x, |old(w.ideal)|) > w.output.Length
  {
    hide EmitLabel, Be16, SrvHead;
    ghost var start := w.ideal;
    ghost var e := EmitLabel(x.target, |w.ideal| + 8, w.table, w.limit);
    ghost var head := SrvHead(x.priority, x.weight, x.port);
    var r := w.Reserve(2);
    ghost var gap := w.ideal;
    SerializeSrvHead(x, w);
    SerializeLabel(x.target, w);
    Assoc(gap, head, e.bytes);
    underflow := FillLength(r, w, start, head + e.bytes);
  }

  /** `Record::serialize` dispatches on the record. */
  method SerializeRecord(x: Record<Label>, w: Writer) returns (underflow: bool)
    requires w.Valid() && w.output.Length < USIZE
    requires x.RecPTR? ==> WholeParts(x.name.items)
    requires x.RecSRV? ==> WholeParts(x.target.items)
    modifies w, w.output
    ensures w.Valid() && w.Advanced()
    ensures var e := EmitRecord(x, |old(w.ideal)|, old(w.table), w.limit);
      w.ideal == old(w.ideal) + e.bytes && w.table == e.table
    ensures underflow <==> RecordReserve(x, |old(w.ideal)|) > w.output.Length
  {
    hide EmitLabel, Be16;
    underflow := false;
    match x {
      case RecA(v4) =>
        Assoc(w.ideal, Be16(4), v4);
        w.Write(Be16(4));
        w.Write(v4);
      case RecAAAA(v6) =>
        Assoc(w.ideal, Be16(16), v6);
        w.Write(Be16(16));
        w.Write(v6);
      case RecPTR(name) => underflow := SerializePTR(name, w);
      case RecTXT(text) =>
        Assoc(w.ideal, Be16(|text|), text);
        w.Write(Be16(|text|));
        w.Write(text);
      case RecSRV(_, _, _, _) => underflow := SerializeSRV(x, w);
    }
  }

  lemma AnswerSoFar(start: seq<byte>, name: seq<byte>, a: Answer<Label>, rest: seq<byte>)
    ensures start + name + Be16(TypeCode(a.atype)) + Be16(ClassCode(a.aclass)) + Be32(a.ttl) + rest ==
            start + (name + (AnswerHead(a) + rest))
  {
    hide Be16, Be32, TypeCode, ClassCode;
  }

  method SerializeAnswer(a: Answer<Label>, w: Writer) returns (underflow: bool)
    requires w.Valid() && w.output.Length < USIZE && WholeAnswer(a)
    modifies w, w.output
    ensures w.Valid() && w.Advanced()
    ensures var e := EmitAnswer(a, |old(w.ideal)|, old(w.table), w.limit);
      w.ideal == old(w.ideal) + e.bytes && w.table == e.table
    ensures underflow <==> AnswerReserve(a, |old(w.ideal)|, old(w.table), w.limit) > w.output.Length
  {
    hide EmitLabel, EmitRecord, Be16, Be32, TypeCode, ClassCode, RecordReserve, AnswerHead;
    ghost var n := EmitLabel(a.name, |w.ideal|, w.table, w.limit);
    ghost var r := EmitRecord(a.record, |w.ideal| + |n.bytes| + 8, n.table, w.limit);
    AnswerSoFar(w.ideal, n.bytes, a, r.bytes);
    SerializeLabel(a.name, w);
    w.Write(Be16(TypeCode(a.atype)));
    w.Write(Be16(ClassCode(a.aclass)));
    w.Write(Be32(a.ttl));
    underflow := SerializeRecord(a.record, w);
  }

  method SerializeQueries(qs: seq<Query<Label>>, w: Writer)
    requires w.Valid() && forall q :: q in qs ==> WholeParts(q.name.items)
    modifies w, w.output
    ensures w.Valid() && w.Advanced()
    ensures var e := EmitQueries(qs, |old(w.ideal)|, old(w.table), w.limit);
      w.ideal == old(w.ideal) + e.bytes && w.table == e.table
  {
    hide EmitQuery;
    var rest := qs;
    ghost var goal := EmitQueries(qs, |w.ideal|, w.table, w.limit);
    ghost var octets := w.ideal + goal.bytes;
    while rest != []
      invariant w.Valid() && w.Advanced()
      invariant forall q :: q in rest ==> WholeParts(q.name.items)
      invariant octets == w.ideal + EmitQueries(rest, |w.ideal|, w.table, w.limit).bytes
      invariant goal.table == EmitQueries(rest, |w.ideal|, w.table, w.limit).table
      decreases |rest|
    {
      ghost var e := EmitQuery(rest[0], |w.ideal|, w.table, w.limit);
      Assoc(w.ideal, e.bytes, EmitQueries(rest[1..], |w.ideal| + |e.bytes|, e.table, w.limit).bytes);
      SerializeQuery(rest[0], w);
      rest := rest[1..];
    }
  }

  method SerializeAnswers(xs: seq<Answer<Label>>, w: Writer) returns (underflow: bool)
    requires w.Valid() && w.output.Length < USIZE && forall a :: a in xs ==> WholeAnswer(a)
    modifies w, w.output
    ensures w.Valid() && w.Advanced()
    ensures var e := EmitAnswers(xs, |old(w.ideal)|, old(w.table), w.limit);
      w.ideal == old(w.ideal) + e.bytes && w.table == e.table
    ensures underflow <==> AnswersReserve(xs, |old(w.ideal)|, old(w.table), w.limit) > w.output.Length
  {
    hide EmitAnswer, AnswerReserve;
    var rest := xs;
    underflow := false;
    ghost var start := |w.ideal|;
    ghost var before := w.table;
    ghost var goal := EmitAnswers(xs, |w.ideal|, w.table, w.limit);
    ghost var octets := w.ideal + goal.bytes;
    while rest != []
      invariant w.Valid() && w.Advanced()
      invariant forall a :: a in rest ==> WholeAnswer(a)
      invariant octets == w.ideal + EmitAnswers(rest, |w.ideal|, w.table, w.limit).bytes
      invariant goal.table == EmitAnswers(rest, |w.ideal|, w.table, w.limit).table
      invariant AnswersReserve(xs, start, before, w.limit) > w.output.Length <==>
                underflow || AnswersReserve(rest, |w.ideal|, w.table, w.limit) > w.output.Length
      decreases |rest|
    {
      ghost var e := EmitAnswer(rest[0], |w.ideal|, w.table, w.limit);
      Assoc(w.ideal, e.bytes, EmitAnswers(rest[1..], |w.ideal| + |e.bytes|, e.table, w.limit).bytes);
      assert WholeAnswer(rest[0]);
      var under := SerializeAnswer(rest[0], w);
      underflow := underflow || under;
      rest := rest[1..];
    }
  }

  lemma HeaderSoFar(m: Message<Label>, count: nat)
    requires count == if m.Response? then |m.answers| else 0
    ensures [] + Be16(m.id) + Be16(m.flags) + Be16(|m.queries|) + Be16(count) + Be16(0) + Be16(0) == Header(m)
  {
    hide Be16;
    assert [] + Be16(m.id) == Be16(m.id);
  }

  /**
   `Message::serialize`. The buffer holds the octets of the message exactly when it has room for
   them; the subtraction on RDLENGTH goes below zero exactly when the buffer ends before the last
   reservation does.
   */
  method SerializeMessage(m: Message<Label>, buffer: array<byte>, limit: Option<nat>) returns (n: nat, underflow: bool)
    requires WholeMessage(m) && buffer.Length < USIZE
    modifies buffer
    ensures n <= buffer.Length
    ensures |Serialize(m, limit)| <= buffer.Length ==> buffer[..n] == Serialize(m, limit)
    ensures |Serialize(m, limit)| > buffer.Length ==> n < |Serialize(m, limit)|
    ensures underflow <==> MessageReserve(m, limit) > buffer.Length
  {
    hide EmitQueries, EmitAnswers, AnswersReserve, Be16, Header;
    var w := new Writer(buffer, limit);
    w.Write(Be16(m.id));
    w.Write(Be16(m.flags));
    w.Write(Be16(|m.queries|));
    w.Write(Be16(if m.Response? then |m.answers| else 0));
    w.Write(Be16(0));
    w.Write(Be16(0));
    HeaderSoFar(m, if m.Response? then |m.answers| else 0);
    ghost var q := EmitQueries(m.queries, 12, [], limit);
    SerializeQueries(m.queries, w);
    underflow := false;
    if m.Response? {
      Assoc(Header(m), q.bytes, EmitAnswers(m.answers, 12 + |q.bytes|, q.table, limit).bytes);
      underflow := SerializeAnswers(m.answers, w);
    }
    n := w.position;
  }

  // ---------------------------------------------------------------- reading

  function Prepend<T>(xs: seq<T>, r: Option<Parsed<seq<T>>>): Option<Parsed<seq<T>>>
  {
    match r case None => None case Some(p) => Some(Parsed(xs + p.value, p.rest))
  }

  /** The loop over QDCOUNT questions. */
  method Questions(n: nat, start: seq<byte>, ctx: seq<byte>, qlen: Option<nat>, llen: Option<nat>)
    returns (r: Option<Parsed<seq<Query<Label>>>>)
    ensures r == ParseQueries(n, start, ctx, qlen, llen)
  {
    hide ParseQuery;
    var input, queries := start, [];
    PrependNone(ParseQueries(n, start, ctx, qlen, llen));
    for i := 0 to n
      invariant qlen.Some? ==> |queries| <= qlen.value
      invariant ParseQueries(n, start, ctx, qlen, llen) ==
                Prepend(queries, ParseQueries(n - i, input, ctx, Room(qlen, |queries|), llen))
    {
      var q := ParseQuery(input, ctx, llen);
      if q.None? || (qlen.Some? && |queries| >= qlen.value) {
        return None;
      }
      ghost var more := ParseQueries(n - i - 1, q.value.rest, ctx, Less(Room(qlen, |queries|)), llen);
      PrependMore(queries, q.value.value, more);
      queries, input := queries + [q.value.value], q.value.rest;
    }
    assert queries + [] == queries;
    r := Some(Parsed(queries, input));
  }

  lemma PrependNone<T>(r: Option<Parsed<seq<T>>>)
    ensures Prepend([], r) == r
  {
    if r.Some? {
      assert [] + r.value.value == r.value.value;
    }
  }

  lemma PrependMore<T>(xs: seq<T>, x: T, r: Option<Parsed<seq<T>>>)
    ensures Prepend(xs, Prepend([x], r)) == Prepend(xs + [x], r)
  {
    if r.Some? {
      Assoc(xs, [x], r.value.value);
    }
  }

  /** The loop over ANCOUNT answers. */
  method Answers(n: nat, start: seq<byte>, ctx: seq<byte>, alen: Option<nat>, llen: Option<nat>)
    returns (r: Option<Parsed<seq<Answer<Label>>>>)
    ensures r == ParseAnswers(n, start, ctx, alen, llen)
  {
    hide ParseAnswer;
    var input, answers := start, [];
    PrependNone(ParseAnswers(n, start, ctx, alen, llen));
    for i := 0 to n
      invariant alen.Some? ==> |answers| <= alen.value
      invariant ParseAnswers(n, start, ctx, alen, llen) ==
                Prepend(answers, ParseAnswers(n - i, input, ctx, Room(alen, |answers|), llen))
    {
      var a := ParseAnswer(input, ctx, llen);
      if a.None? || (alen.Some? && |answers| >= alen.value) {
        return None;
      }
      ghost var more := ParseAnswers(n - i - 1, a.value.rest, ctx, Less(Room(alen, |answers|)), llen);
      PrependMore(answers, a.value.value, more);
      answers, input := answers + [a.value.value], a.value.rest;
    }
    assert answers + [] == answers;
    r := Some(Parsed(answers, input));
  }

  /** `Message::parse`: the QR bit chooses between a request and a response. */
  method Receive(input: seq<byte>, caps: Caps) returns (r: Option<Parsed<Message<Label>>>)
    ensures r == ParseMessage(input, caps)
  {
    hide ParseQueries, ParseAnswers, ReadU16, IsRequest;
    if |input| < 4 {
      return None;
    }
    var h := ParseHead(input);
    if h.None? {
      return None;
    }
    var head := h.value.value;
    var q := Questions(head.qdcount, h.value.rest, input, caps.qlen, caps.llen);
    if q.None? {
      return None;
    }
    if IsRequest(ReadU16(input[2..]).value.value) {
      return Some(Parsed(Request(head.id, head.flags, q.value.value), q.value.rest));
    }
    var a := Answers(head.ancount, q.value.rest, input, caps.alen, caps.llen);
    if a.None? {
      return None;
    }
    r := Some(Parsed(Response(head.id, head.flags, q.value.value, a.value.value), a.value.rest));
  }
}

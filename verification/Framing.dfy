/** Record boundaries: an independent walker that trusts RDLENGTH, and this parser, which does not. */
module Framing {
  import opened Bytes
  import opened Names
  import opened Writers
  import opened LabelParser
  import opened LabelWriter
  import opened NameShape
  import opened NameTrip
  import opened Messages
  import opened MessageTrip

  /** The offset after a name: over its segments, and past a pointer or the zero octet. */
  function SkipName(b: seq<byte>, p: nat): Option<nat>
    decreases |b| - p
  {
    if p >= |b| then None
    else if b[p] == 0 then Some(p + 1)
    else if b[p] >= 0x40 then if p + 2 <= |b| then Some(p + 2) else None
    else SkipName(b, p + 1 + b[p])
  }

  /**
   Section 4.1.3 of RFC 1035: a record is a name, ten octets that end in RDLENGTH, and as many
   octets as it says.
   */
  function SkipRecord(b: seq<byte>, p: nat): Option<nat>
  {
    match SkipName(b, p)
    case None => None
    case Some(q) =>
      if q + 10 > |b| then None
      else
        var end := q + 10 + Join16(b[q + 8], b[q + 9]);
        if 0 <= end <= |b| then Some(end) else None
  }

  function SkipRecords(b: seq<byte>, p: nat, n: nat): Option<nat>
    decreases n
  {
    if n == 0 then Some(p)
    else
      match SkipRecord(b, p)
      case None => None
      case Some(q) => SkipRecords(b, q, n - 1)
  }

  // ---------------------------------------------------------------- names

  lemma {:induction false} SkipSegs(b: seq<byte>, p: nat, segs: Name)
    requires At(b, p, Raw(segs)) && WireSegs(segs)
    ensures SkipName(b, p) == SkipName(b, p + |Raw(segs)|)
    decreases |segs|
  {
    hide SkipName, Raw, Utf8;
    if segs == [] {
      RawEmpty();
    } else {
      var seg := segs[0];
      assert seg in segs && segs == [seg] + segs[1..];
      RawCons(seg, segs[1..]);
      AtSplit(b, p, LenSeg(seg), Raw(segs[1..]));
      SkipSeg(b, p, seg);
      SkipSegs(b, p + 1 + |seg|, segs[1..]);
    }
  }

  lemma SkipSeg(b: seq<byte>, p: nat, seg: Seg)
    requires At(b, p, LenSeg(seg)) && WireSeg(seg)
    ensures SkipName(b, p) == SkipName(b, p + 1 + |seg|)
  {
    hide Utf8;
    assert b[p] == b[p..p + 1 + |seg|][0] == |seg|;
  }

  lemma SkipEnding(b: seq<byte>, m: nat, hit: Option<Entry>)
    requires At(b, m, Ending(true, hit))
    ensures SkipName(b, m) == Some(m + |Ending(true, hit)|)
  {
    var e := Ending(true, hit);
    assert b[m] == b[m..m + |e|][0] == e[0];
  }

  /** The walker gets past any written name, whatever its pointer leads to. */
  lemma SkipLabel(b: seq<byte>, lab: Label, p: nat, table: Table, limit: Option<nat>)
    requires Proper(lab) && At(b, p, EmitLabel(lab, p, table, limit).bytes)
    ensures SkipName(b, p) == Some(p + |EmitLabel(lab, p, table, limit).bytes|)
  {
    hide SkipName, EmitItems, Raw, RunItems, StrItems, ItemsSegs, StrSegs, WireSeg;
    var e := EmitItems(lab.items, p, table, limit);
    if RunItems(lab.items) {
      RunsShape(lab.items, p, table, limit);
      assert e.bytes == Raw(e.full) + Ending(true, None);
    } else {
      ItemsShape(lab.items, p, table, limit);
      assert WireSegs(e.full) by {
        assert forall seg :: seg in e.full ==> seg in Segs(lab);
      }
    }
    AtSplit(b, p, Raw(e.full), Ending(true, e.hit));
    SkipSegs(b, p, e.full);
    SkipEnding(b, p + |Raw(e.full)|, e.hit);
  }

  // ---------------------------------------------------------------- records

  /** RDATA short enough for a 16-bit length. */
  predicate ShortData(r: Record<Label>, pos: nat, table: Table, limit: Option<nat>)
  {
    |EmitRecord(r, pos, table, limit).bytes| < 2 + 0x1_0000
  }

  /** RDLENGTH is the number of octets that follow it in the record. */
  lemma LengthIsTrue(b: seq<byte>, r: Record<Label>, p: nat, table: Table, limit: Option<nat>)
    requires ShortData(r, p, table, limit) && At(b, p, EmitRecord(r, p, table, limit).bytes)
    ensures p + 2 <= |b|
    ensures Join16(b[p], b[p + 1]) == |EmitRecord(r, p, table, limit).bytes| - 2
  {
    hide EmitLabel, Be16;
    match r
    case RecA(v4) => CountIs(b, p, 4, v4);
    case RecAAAA(v6) => CountIs(b, p, 16, v6);
    case RecPTR(name) =>
      var e := EmitLabel(name, p + 2, table, limit);
      CountIs(b, p, |e.bytes|, e.bytes);
    case RecTXT(text) => CountIs(b, p, |text|, text);
    case RecSRV(priority, weight, port, target) =>
      var e := EmitLabel(target, p + 8, table, limit);
      CountIs(b, p, 6 + |e.bytes|, SrvHead(priority, weight, port) + e.bytes);
  }

  lemma CountIs(b: seq<byte>, p: nat, n: nat, rest: seq<byte>)
    requires At(b, p, Be16(n) + rest) && n < 0x1_0000
    ensures p + 2 <= |b| && Join16(b[p], b[p + 1]) == n
  {
    hide Be16;
    AtSplit(b, p, Be16(n), rest);
    ReadAt16(b, p, n);
  }

  lemma SkipAnswer(b: seq<byte>, a: Answer<Label>, p: nat, table: Table, limit: Option<nat>)
    requires Proper(a.name) && At(b, p, EmitAnswer(a, p, table, limit).bytes)
    requires var e := EmitLabel(a.name, p, table, limit); ShortData(a.record, p + |e.bytes| + 8, e.table, limit)
    ensures SkipRecord(b, p) == Some(p + |EmitAnswer(a, p, table, limit).bytes|)
  {
    hide SkipName, EmitLabel, EmitRecord, AnswerHead, Proper, Join16, ShortData;
    var e := EmitLabel(a.name, p, table, limit);
    var q := p + |e.bytes|;
    var r := EmitRecord(a.record, q + 8, e.table, limit);
    AtSplit(b, p, e.bytes, AnswerHead(a) + r.bytes);
    AtSplit(b, q, AnswerHead(a), r.bytes);
    SkipLabel(b, a.name, p, table, limit);
    LengthIsTrue(b, a.record, q + 8, e.table, limit);
  }

  /** Every answer of the list has a proper name and short RDATA. */
  predicate Framed(xs: seq<Answer<Label>>, pos: nat, table: Table, limit: Option<nat>)
  {
    xs == [] ||
    (var e := EmitLabel(xs[0].name, pos, table, limit);
     var w := EmitAnswer(xs[0], pos, table, limit);
     Proper(xs[0].name) && ShortData(xs[0].record, pos + |e.bytes| + 8, e.table, limit)
     && Framed(xs[1..], pos + |w.bytes|, w.table, limit))
  }

  /** Trusting every RDLENGTH, the walker ends where the answers end. */
  lemma {:induction false} SkipAnswers(b: seq<byte>, xs: seq<Answer<Label>>, p: nat, table: Table, limit: Option<nat>)
    requires Framed(xs, p, table, limit) && At(b, p, EmitAnswers(xs, p, table, limit).bytes)
    ensures SkipRecords(b, p, |xs|) == Some(p + |EmitAnswers(xs, p, table, limit).bytes|)
  {
    hide EmitLabel, EmitAnswer, SkipRecord, ShortData, Proper;
    if xs != [] {
      var w := EmitAnswer(xs[0], p, table, limit);
      var more := EmitAnswers(xs[1..], p + |w.bytes|, w.table, limit);
      AtSplit(b, p, w.bytes, more.bytes);
      SkipAnswer(b, xs[0], p, table, limit);
      SkipAnswers(b, xs[1..], p + |w.bytes|, w.table, limit);
    }
  }

  // ---------------------------------------------------------------- the parser

  /** A name that is read at all is read to its end, wherever its pointer leads. */
  lemma LabelRest(b: seq<byte>, lab: Label, p: nat, table: Table, limit: Option<nat>)
    requires Proper(lab) && At(b, p, EmitLabel(lab, p, table, limit).bytes)
    ensures var r := ParseLabel(b[p..], b, None);
      r.Some? ==> r.value.rest == b[p + |EmitLabel(lab, p, table, limit).bytes|..]
  {
    hide Decode, StrictDecode, ParseLabel, EmitItems, Raw, RunItems, StrItems, ItemsSegs, StrSegs, WireSeg, Ending;
    var e := EmitItems(lab.items, p, table, limit);
    if RunItems(lab.items) {
      RunsShape(lab.items, p, table, limit);
      NoPointer();
    } else {
      ItemsShape(lab.items, p, table, limit);
      assert WireSegs(e.full);
    }
    AtSplit(b, p, Raw(e.full), Ending(true, e.hit));
    ParseIsDecode(b[p..], b);
    DecodeSegs(b, p, e.full, BUDGET);
    EndingRest(b, p + |Raw(e.full)|, e.hit);
  }

  lemma NoPointer()
    ensures Ending(true, None) == [0]
  {
  }

  lemma EndingRest(b: seq<byte>, m: nat, hit: Option<Entry>)
    requires At(b, m, Ending(true, hit))
    ensures var d := Decode(b[m..], b, BUDGET); d.Some? ==> d.value.rest == b[m + |Ending(true, hit)|..]
  {
    hide Decode, StrictDecode;
    var e := Ending(true, hit);
    var input := b[m..];
    assert input[0] == b[m..m + |e|][0] == e[0];
    if hit.None? {
      ReadsEnd(b, m);
      BudgetGives(b, m, [], 0, 1, m + 1);
    } else if Leads(input, b) {
      DecodePointer(input, b, BUDGET);
      assert input[2..] == b[m + 2..];
    } else {
      DecodeStuck(input, b, BUDGET);
    }
  }

  lemma CountedRest(b: seq<byte>, p: nat, data: seq<byte>)
    requires |data| < 0x1_0000 && At(b, p, Be16(|data|) + data)
    ensures ReadCounted(b[p..]).Some? && ReadCounted(b[p..]).value.rest == b[p + 2 + |data|..]
  {
    CountedBack(b, p, data);
  }

  /** Reads past the length of PTR and SRV, and by the length of the others. */
  lemma RecordRest(b: seq<byte>, t: QType, x: Record<Label>, p: nat, table: Table, limit: Option<nat>)
    requires GoodRecordFields(t, x) && ProperRecord(x) && At(b, p, EmitRecord(x, p, table, limit).bytes)
    ensures var r := ParseRecord(b[p..], b, t, None);
      r.Some? ==> r.value.rest == b[p + |EmitRecord(x, p, table, limit).bytes|..]
  {
    hide EmitLabel, ParseLabel, Built, Proper, ItemsSegs, Be16, Utf8, ReadCounted;
    match x
    case RecA(v4) => CountedRest(b, p, v4);
    case RecAAAA(v6) => CountedRest(b, p, v6);
    case RecTXT(text) => CountedRest(b, p, text);
    case RecPTR(name) =>
      var e := EmitLabel(name, p + 2, table, limit);
      AtSplit(b, p, Be16(|e.bytes|), e.bytes);
      assert b[p..][2..] == b[p + 2..];
      LabelRest(b, name, p + 2, table, limit);
    case RecSRV(priority, weight, port, target) =>
      var e := EmitLabel(target, p + 8, table, limit);
      AtSplit(b, p, Be16(6 + |e.bytes|), SrvHead(priority, weight, port) + e.bytes);
      AtSplit(b, p + 2, SrvHead(priority, weight, port), e.bytes);
      SrvPrefix(b[p..], b);
      assert b[p..][8..] == b[p + 8..];
      LabelRest(b, target, p + 8, table, limit);
  }

  lemma SrvPrefix(input: seq<byte>, ctx: seq<byte>)
    requires |input| >= 8
    ensures ParseSRV(input, ctx, None).Some? ==>
              var name := ParseLabel(input[8..], ctx, None);
              name.Some? && ParseSRV(input, ctx, None).value.rest == name.value.rest
  {
    hide ParseLabel;
    assert input[2..][2..] == input[4..] && input[4..][2..] == input[6..] && input[6..][2..] == input[8..];
  }

  lemma AnswerRest(b: seq<byte>, a: Answer<Label>, p: nat, table: Table, limit: Option<nat>)
    requires GoodAnswerFields(a) && ProperAnswer(a) && At(b, p, EmitAnswer(a, p, table, limit).bytes)
    ensures var r := ParseAnswer(b[p..], b, None);
      r.Some? ==> r.value.rest == b[p + |EmitAnswer(a, p, table, limit).bytes|..]
  {
    hide EmitLabel, ParseLabel, Proper, ProperRecord, Built, ItemsSegs, TypeOf, TypeCode, ClassOf, ClassCode,
      ReadU16, ReadU32, AnswerHead, EmitRecord, ParseRecord, GoodRecordFields;
    var e := EmitLabel(a.name, p, table, limit);
    var m := p + |e.bytes|;
    var x := EmitRecord(a.record, m + 8, e.table, limit);
    AtSplit(b, p, e.bytes, AnswerHead(a) + x.bytes);
    AtSplit(b, m, AnswerHead(a), x.bytes);
    LabelRest(b, a.name, p, table, limit);
    HeadBack(b, a, m);
    RecordType(a.atype, a.record);
    RecordRest(b, a.atype, a.record, m + 8, e.table, limit);
  }

  lemma {:induction false} AnswersRest(b: seq<byte>, xs: seq<Answer<Label>>, p: nat, table: Table, limit: Option<nat>)
    requires GoodAnswersFields(xs) && (forall a :: a in xs ==> ProperAnswer(a))
    requires At(b, p, EmitAnswers(xs, p, table, limit).bytes)
    ensures var r := ParseAnswers(|xs|, b[p..], b, None, None);
      r.Some? ==> r.value.rest == b[p + |EmitAnswers(xs, p, table, limit).bytes|..]
  {
    hide ParseAnswer, EmitAnswer, GoodAnswerFields, ProperAnswer;
    if xs != [] {
      var e := EmitAnswer(xs[0], p, table, limit);
      var q := p + |e.bytes|;
      AtSplit(b, p, e.bytes, EmitAnswers(xs[1..], q, e.table, limit).bytes);
      AnswerRest(b, xs[0], p, table, limit);
      AnswersRest(b, xs[1..], q, e.table, limit);
    }
  }

  // ---------------------------------------------------------------- both

  lemma WalkerAndParserAgree(b: seq<byte>, xs: seq<Answer<Label>>, p: nat, table: Table, limit: Option<nat>)
    requires GoodAnswersFields(xs) && (forall a :: a in xs ==> ProperAnswer(a))
    requires Framed(xs, p, table, limit) && At(b, p, EmitAnswers(xs, p, table, limit).bytes)
    ensures var walked, read := SkipRecords(b, p, |xs|), ParseAnswers(|xs|, b[p..], b, None, None);
      && walked.Some? && walked.value <= |b|
      && (read.Some? ==> read.value.rest == b[walked.value..])
  {
    hide EmitAnswers, SkipRecords, ParseAnswers, Framed, GoodAnswersFields, ProperAnswer;
    SkipAnswers(b, xs, p, table, limit);
    AnswersRest(b, xs, p, table, limit);
  }

  lemma FirstNone(b: seq<byte>, p: nat, table: Table, limit: Option<nat>)
    requires p <= |b|
    ensures Framed([], p, table, limit) && GoodAnswers([], p, table, limit)
    ensures At(b, p, EmitAnswers([], p, table, limit).bytes)
  {
  }

  lemma FramedStep(xs: seq<Answer<Label>>, p: nat, table: Table, limit: Option<nat>)
    requires xs != []
    ensures var w := EmitAnswer(xs[0], p, table, limit);
      var m := p + |w.bytes|;
      && EmitAnswers(xs, p, table, limit).bytes == w.bytes + EmitAnswers(xs[1..], m, w.table, limit).bytes
      && GoodAnswers(xs, p, table, limit) ==
         (GoodAnswer(xs[0], p, table, limit) && GoodAnswers(xs[1..], m, w.table, limit))
      && var e := EmitLabel(xs[0].name, p, table, limit);
      Framed(xs, p, table, limit) ==
      (Proper(xs[0].name) && ShortData(xs[0].record, p + |e.bytes| + 8, e.table, limit)
       && Framed(xs[1..], m, w.table, limit))
  {
    hide EmitLabel, EmitAnswer, ShortData, Proper, GoodAnswer;
  }

  /** What holds of a list of answers as it is written holds of its first `k`. */
  lemma {:induction false} FirstAnswers(b: seq<byte>, xs: seq<Answer<Label>>, k: nat, p: nat, table: Table,
                                        limit: Option<nat>)
    requires k <= |xs| && Framed(xs, p, table, limit)
    requires At(b, p, EmitAnswers(xs, p, table, limit).bytes)
    ensures Framed(xs[..k], p, table, limit)
    ensures GoodAnswers(xs, p, table, limit) ==> GoodAnswers(xs[..k], p, table, limit)
    ensures At(b, p, EmitAnswers(xs[..k], p, table, limit).bytes)
  {
    hide EmitLabel, EmitAnswer, ShortData, Proper, GoodAnswer, EmitAnswers, GoodAnswers, Framed;
    if k == 0 {
      FirstNone(b, p, table, limit);
      assert xs[..k] == [];
    } else {
      var w := EmitAnswer(xs[0], p, table, limit);
      var m := p + |w.bytes|;
      FramedStep(xs, p, table, limit);
      FramedStep(xs[..k], p, table, limit);
      var more := EmitAnswers(xs[1..], m, w.table, limit);
      AtSplit(b, p, w.bytes, more.bytes);
      FirstAnswers(b, xs[1..], k - 1, m, w.table, limit);
      assert xs[..k][0] == xs[0] && xs[..k][1..] == xs[1..][..k - 1];
      AtJoin(b, p, w.bytes, EmitAnswers(xs[1..][..k - 1], m, w.table, limit).bytes);
    }
  }

  lemma AtJoin(b: seq<byte>, p: nat, x: seq<byte>, y: seq<byte>)
    requires At(b, p, x) && At(b, p + |x|, y)
    ensures At(b, p, x + y)
  {
    assert b[p..p + |x| + |y|] == b[p..p + |x|] + b[p + |x|..p + |x| + |y|];
  }

  /**
   Framing: in the octets of a response, after any number `k` of answers, the walker that skips by
   RDLENGTH and the parser, which reads past the lengths of PTR and SRV, stand at the same octet
   whenever the parser gets there, clashing names or not; and it does when the names survive the trip.
   */
  lemma ResponseFraming(m: Message<Label>, limit: Option<nat>, k: nat)
    requires m.Response? && GoodFields(m) && ProperNames(m) && k <= |m.answers|
    requires var q := EmitQueries(m.queries, 12, [], limit); Framed(m.answers, 12 + |q.bytes|, q.table, limit)
    ensures var b, p := Serialize(m, limit), 12 + |EmitQueries(m.queries, 12, [], limit).bytes|;
      && p <= |b|
      && var walked, read := SkipRecords(b, p, k), ParseAnswers(k, b[p..], b, None, None);
      && walked.Some? && walked.value <= |b|
      && (read.Some? ==> read.value.rest == b[walked.value..])
      && (GoodNames(m, limit) ==> read.Some?)
  {
    hide EmitQueries, EmitAnswers, SkipRecords, ParseAnswers, ParseQueries, GoodAnswers, GoodQueries, Framed, Header,
      ViewAnswers, ViewQueries, GoodAnswerFields, GoodQueryFields, ProperAnswer, Proper;
    var b := Serialize(m, limit);
    var q := EmitQueries(m.queries, 12, [], limit);
    var p := 12 + |q.bytes|;
    var a := EmitAnswers(m.answers, p, q.table, limit);
    Itself(b);
    AtSplit(b, 0, Header(m), q.bytes + a.bytes);
    AtSplit(b, 12, q.bytes, a.bytes);
    FirstAnswers(b, m.answers, k, p, q.table, limit);
    WalkerAndParserAgree(b, m.answers[..k], p, q.table, limit);
    if GoodNames(m, limit) {
      FirstRead(b, m, limit, k);
    }
  }

  lemma FirstRead(b: seq<byte>, m: Message<Label>, limit: Option<nat>, k: nat)
    requires m.Response? && GoodFields(m) && GoodNames(m, limit) && k <= |m.answers|
    requires At(b, 12, EmitQueries(m.queries, 12, [], limit).bytes)
    requires var q := EmitQueries(m.queries, 12, [], limit);
      var p := 12 + |q.bytes|;
      && At(b, p, EmitAnswers(m.answers[..k], p, q.table, limit).bytes)
      && GoodAnswers(m.answers[..k], p, q.table, limit)
    ensures ParseAnswers(k, b[12 + |EmitQueries(m.queries, 12, [], limit).bytes|..], b, None, None).Some?
  {
    hide EmitQueries, EmitAnswers, ParseAnswers, ParseQueries, GoodAnswers, GoodQueries, ViewAnswers, ViewQueries,
      GoodAnswerFields, GoodQueryFields;
    var q := EmitQueries(m.queries, 12, [], limit);
    QueriesTrip(b, m.queries, 12, [], limit);
    AnswersTrip(b, m.answers[..k], 12 + |q.bytes|, q.table, limit);
  }
}

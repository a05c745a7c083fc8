/** Which packets are accepted, and as what: on every input the parser agrees with the layout of a message. */
module Acceptance {
  import opened Bytes
  import opened Names
  import opened LabelParser
  import opened Messages
  import opened Readings
  import opened Standard

  // ---------------------------------------------------------------- names and numbers

  lemma {:induction false} DecodeRest(input: seq<byte>, b: seq<byte>, k: nat)
    ensures var d := Decode(input, b, k);
      d.Some? ==> |d.value.rest| <= |input| && d.value.rest == input[|input| - |d.value.rest|..]
    decreases k, |input|
  {
    hide Utf8;
    if input != [] && 0 < input[0] < 64 {
      var n := 1 + input[0];
      if |input| >= n {
        DecodeRest(input[n..], b, k);
      }
    }
  }

  /** The parser and the reader by offset give the same value and stand at the same octet. */
  ghost predicate SameName(r: Option<Parsed<Label>>, s: Option<Spot<Name>>, b: seq<byte>)
  {
    match s
    case None => r == None
    case Some(n) => r.Some? && Segs(r.value.value) == n.value && n.next <= |b| && r.value.rest == b[n.next..]
  }

  lemma NameAccepted(b: seq<byte>, p: nat)
    requires p <= |b|
    ensures SameName(ParseLabel(b[p..], b, None), NameAt(b, p, false), b)
  {
    hide Decode, ParseLabel, FlatSplit, ItemsSegs, RunItems;
    ParseIsDecode(b[p..], b);
    DecodeRest(b[p..], b, 4);
    var d := Decode(b[p..], b, 4);
    if d.Some? {
      var n := |d.value.rest|;
      assert b[p..][|b| - p - n..] == b[|b| - n..];
    }
  }

  lemma WordAt(b: seq<byte>, p: nat)
    requires p <= |b|
    ensures var r := ReadU16(b[p..]);
      if p + 2 > |b| then r == None else r == Some(Parsed(Word(b, p), b[p + 2..]))
  {
  }

  lemma LongAt(b: seq<byte>, p: nat)
    requires p <= |b|
    ensures var r := ReadU32(b[p..]);
      if p + 4 > |b| then r == None else r == Some(Parsed(Long(b, p), b[p + 4..]))
  {
  }

  lemma TypesNamed(code: u16)
    ensures TypeOf(code) == TypeNamed(code) && ClassOf(code) == ClassNamed(code)
  {
  }

  // ---------------------------------------------------------------- questions

  ghost predicate SameQuery(r: Option<Parsed<Query<Label>>>, s: Option<Spot<Query<Name>>>, b: seq<byte>)
  {
    match s
    case None => r == None
    case Some(q) => r.Some? && ViewQuery(r.value.value) == q.value && q.next <= |b| && r.value.rest == b[q.next..]
  }

  lemma QueryAccepted(b: seq<byte>, p: nat)
    requires p <= |b|
    ensures SameQuery(ParseQuery(b[p..], b, None), QuestionAt(b, p, false), b)
  {
    hide ParseLabel, NameAt, ItemsSegs, ReadU16, Word, TypeOf, TypeNamed, ClassOf, ClassNamed;
    NameAccepted(b, p);
    var n := NameAt(b, p, false);
    if n.Some? {
      var q := n.value.next;
      WordAt(b, q);
      if q + 2 <= |b| {
        WordAt(b, q + 2);
        TypesNamed(Word(b, q));
        if q + 4 <= |b| {
          TypesNamed(Word(b, q + 2));
        }
      }
    }
  }

  ghost predicate SameQueries(r: Option<Parsed<seq<Query<Label>>>>, s: Option<Spot<seq<Query<Name>>>>, b: seq<byte>)
  {
    match s
    case None => r == None
    case Some(qs) => r.Some? && ViewQueries(r.value.value) == qs.value && qs.next <= |b| && r.value.rest == b[qs.next..]
  }

  lemma {:induction false} QueriesAccepted(b: seq<byte>, p: nat, n: nat)
    requires p <= |b|
    ensures SameQueries(ParseQueries(n, b[p..], b, None, None), QuestionsAt(b, p, n, false), b)
    decreases n
  {
    hide ParseQuery, QuestionAt, ViewQuery, ViewQueries;
    NoQueriesView();
    if n > 0 {
      QueryAccepted(b, p);
      var q := QuestionAt(b, p, false);
      if q.Some? {
        QueriesAccepted(b, q.value.next, n - 1);
        var r := ParseQuery(b[p..], b, None);
        var more := ParseQueries(n - 1, r.value.rest, b, None, None);
        if more.Some? {
          ViewQueriesCons(r.value.value, more.value.value);
        }
      }
    }
  }

  // ---------------------------------------------------------------- answers

  ghost predicate SameRecord(r: Option<Parsed<Record<Label>>>, s: Option<Spot<Record<Name>>>, b: seq<byte>)
  {
    match s
    case None => r == None
    case Some(x) => r.Some? && ViewRecord(r.value.value) == x.value && x.next <= |b| && r.value.rest == b[x.next..]
  }

  lemma CountedAt(b: seq<byte>, p: nat)
    requires p <= |b|
    ensures var r := ReadCounted(b[p..]);
      if p + 2 > |b| || p + 2 + Word(b, p) > |b| then r == None
      else
        var end := p + 2 + Word(b, p);
        r == Some(Parsed(b[p + 2..end], b[end..]))
  {
    hide ReadU16, Word;
    WordAt(b, p);
    if p + 2 <= |b| && p + 2 + Word(b, p) <= |b| {
      var end := p + 2 + Word(b, p);
      assert b[p + 2..][..Word(b, p)] == b[p + 2..end] && b[p + 2..][Word(b, p)..] == b[end..];
    }
  }

  lemma RecordAccepted(b: seq<byte>, p: nat, t: QType)
    requires p <= |b|
    ensures SameRecord(ParseRecord(b[p..], b, t, None), RecordAt(b, p, t, false), b)
  {
    hide ParseLabel, NameAt, ItemsSegs, ReadU16, Word, ReadCounted, Utf8;
    CountedAt(b, p);
    WordAt(b, p);
    match t
    case PTR =>
      if p + 2 <= |b| {
        NameAccepted(b, p + 2);
      }
    case SRV =>
      if p + 2 <= |b| {
        WordAt(b, p + 2);
      }
      if p + 4 <= |b| {
        WordAt(b, p + 4);
      }
      if p + 6 <= |b| {
        WordAt(b, p + 6);
      }
      if p + 8 <= |b| {
        NameAccepted(b, p + 8);
      }
    case _ =>
  }

  ghost predicate SameAnswer(r: Option<Parsed<Answer<Label>>>, s: Option<Spot<Answer<Name>>>, b: seq<byte>)
  {
    match s
    case None => r == None
    case Some(a) => r.Some? && ViewAnswer(r.value.value) == a.value && a.next <= |b| && r.value.rest == b[a.next..]
  }

  lemma AnswerAccepted(b: seq<byte>, p: nat)
    requires p <= |b|
    ensures SameAnswer(ParseAnswer(b[p..], b, None), AnswerAt(b, p, false), b)
  {
    hide ParseLabel, NameAt, ItemsSegs, ReadU16, ReadU32, Word, Long, TypeOf, TypeNamed, ClassOf, ClassNamed,
      ParseRecord, RecordAt, ViewRecord;
    NameAccepted(b, p);
    var n := NameAt(b, p, false);
    if n.Some? {
      var q := n.value.next;
      WordAt(b, q);
      if q + 2 <= |b| {
        WordAt(b, q + 2);
      }
      if q + 4 <= |b| {
        LongAt(b, q + 4);
      }
      if q + 8 <= |b| {
        TypesNamed(Word(b, q));
        TypesNamed(Word(b, q + 2));
        RecordAccepted(b, q + 8, TypeNamed(Word(b, q)));
      }
    }
  }

  ghost predicate SameAnswers(r: Option<Parsed<seq<Answer<Label>>>>, s: Option<Spot<seq<Answer<Name>>>>, b: seq<byte>)
  {
    match s
    case None => r == None
    case Some(xs) => r.Some? && ViewAnswers(r.value.value) == xs.value && xs.next <= |b| && r.value.rest == b[xs.next..]
  }

  lemma {:induction false} AnswersAccepted(b: seq<byte>, p: nat, n: nat)
    requires p <= |b|
    ensures SameAnswers(ParseAnswers(n, b[p..], b, None, None), AnswersAt(b, p, n, false), b)
    decreases n
  {
    hide ParseAnswer, AnswerAt, ViewAnswer, ViewAnswers;
    NoQueriesView();
    if n > 0 {
      AnswerAccepted(b, p);
      var a := AnswerAt(b, p, false);
      if a.Some? {
        AnswersAccepted(b, a.value.next, n - 1);
        var r := ParseAnswer(b[p..], b, None);
        var more := ParseAnswers(n - 1, r.value.rest, b, None, None);
        if more.Some? {
          ViewAnswersCons(r.value.value, more.value.value);
        }
      }
    }
  }

  // ---------------------------------------------------------------- messages

  /** What the parser makes of a packet: a message and the rest, or nothing. */
  ghost predicate SameMessage(r: Option<Parsed<Message<Label>>>, s: Option<Spot<Message<Name>>>, b: seq<byte>)
  {
    match s
    case None => r == None
    case Some(m) => r.Some? && View(r.value.value) == m.value && m.next <= |b| && r.value.rest == b[m.next..]
  }

  lemma FlagsAt(b: seq<byte>)
    requires |b| >= 12
    ensures ReadU16(b[2..]).Some? && (IsRequest(ReadU16(b[2..]).value.value) <==> Octet(b, 2) < 128)
    ensures ParseHead(b) == Some(Parsed(Head(Word(b, 0), Word(b, 2), Word(b, 4), Word(b, 6)), b[12..]))
  {
    WordAt(b, 0);
    WordAt(b, 2);
    WordAt(b, 4);
    WordAt(b, 6);
    assert b[0..] == b;
  }

  /**
   Acceptance, on every packet: the parser takes what the layout of a message, read leniently, makes
   of it, stands at the same octet after it, and rejects just the packets without such a reading.
   */
  lemma Accepted(b: seq<byte>)
    ensures SameMessage(ParseMessage(b, GROWING), MessageAt(b, false), b)
  {
    hide ParseQueries, ParseAnswers, QuestionsAt, AnswersAt, ReadU16, Word, Octet, IsRequest, ViewQueries, ViewAnswers;
    if |b| >= 12 {
      FlagsAt(b);
      QueriesAccepted(b, 12, Word(b, 4));
      var qs := QuestionsAt(b, 12, Word(b, 4), false);
      if qs.Some? {
        AnswersAccepted(b, qs.value.next, Word(b, 6));
      }
    }
  }
}

/** How long a message can get: a bound on its octets that only its meaning decides. */
module Sizes {
  import opened Bytes
  import opened Names
  import opened Writers
  import opened LabelParser
  import opened LabelWriter
  import opened NameShape
  import opened NameTrip
  import opened Messages
  import opened Services

  /** A name in full, or a part of it and a pointer. */
  function NameSize(n: Name): nat
  {
    |Raw(n)| + 2
  }

  function RecordSize(r: Record<Name>): nat
  {
    match r
    case RecA(_) => 2 + 4
    case RecAAAA(_) => 2 + 16
    case RecPTR(name) => 2 + NameSize(name)
    case RecTXT(text) => 2 + |text|
    case RecSRV(_, _, _, target) => 2 + 6 + NameSize(target)
  }

  function AnswerSize(a: Answer<Name>): nat
  {
    NameSize(a.name) + 8 + RecordSize(a.record)
  }

  function QueriesSize(qs: seq<Query<Name>>): nat
  {
    if qs == [] then 0 else NameSize(qs[0].name) + 4 + QueriesSize(qs[1..])
  }

  function AnswersSize(xs: seq<Answer<Name>>): nat
  {
    if xs == [] then 0 else AnswerSize(xs[0]) + AnswersSize(xs[1..])
  }

  function Size(m: Message<Name>): nat
  {
    12 + QueriesSize(m.queries) + if m.Response? then AnswersSize(m.answers) else 0
  }

  // ---------------------------------------------------------------- names

  /** Splitting a segment at its dots turns every dot into a length octet. */
  lemma {:induction false} SplitLength(s: seq<byte>)
    ensures |Raw(SplitDots(s))| == |s| + 1
    decreases |s|
  {
    hide Raw, DotIndex;
    var i := DotIndex(s);
    if i < |s| {
      assert SplitDots(s) == [s[..i]] + SplitDots(s[i + 1..]);
      SplitLength(s[i + 1..]);
      RawCons(s[..i], SplitDots(s[i + 1..]));
    } else {
      RawOne(s);
    }
  }

  lemma {:induction false} TextLength(s: seq<byte>)
    ensures |Raw(StrSegs(s))| <= |s| + 1
    decreases |s|
  {
    if s != [] {
      TextLength(AfterDot(s));
      RawCons(FirstSeg(s), StrSegs(AfterDot(s)));
    }
  }

  lemma {:induction false} FlatLength(segs: Name)
    ensures |Raw(FlatSplit(segs))| == |Raw(segs)|
  {
    if segs != [] {
      FlatLength(segs[1..]);
      SplitLength(segs[0]);
      RawConcat(SplitDots(segs[0]), FlatSplit(segs[1..]));
    }
  }

  lemma LabelWithin(lab: Label, p: nat, table: Table, limit: Option<nat>)
    requires Built(lab)
    ensures |EmitLabel(lab, p, table, limit).bytes| <= NameSize(Segs(lab))
  {
    hide EmitItems, StrItems, Raw, ItemsSegs, StrSegs, Wire, FlatSplit;
    if RunItems(lab.items) {
      RunsShape(lab.items, p, table, limit);
      WireSplits(lab.items);
      FlatLength(Wire(lab.items));
    } else {
      ItemsShape(lab.items, p, table, limit);
      var e := EmitItems(lab.items, p, table, limit);
      RawConcat(e.full, Pointed(e.hit));
    }
  }

  // ---------------------------------------------------------------- messages

  lemma AnswerWithin(a: Answer<Label>, p: nat, table: Table, limit: Option<nat>)
    requires GoodAnswerFields(a)
    ensures |EmitAnswer(a, p, table, limit).bytes| <= AnswerSize(ViewAnswer(a))
  {
    hide EmitLabel, NameSize, ItemsSegs, Built, AnswerHead;
    LabelWithin(a.name, p, table, limit);
    var e := EmitLabel(a.name, p, table, limit);
    var q := p + |e.bytes| + 8;
    match a.record
    case RecPTR(name) => LabelWithin(name, q + 2, e.table, limit);
    case RecSRV(_, _, _, target) => LabelWithin(target, q + 8, e.table, limit);
    case _ =>
  }

  lemma {:induction false} QueriesWithin(qs: seq<Query<Label>>, p: nat, table: Table, limit: Option<nat>)
    requires GoodQueriesFields(qs)
    ensures |EmitQueries(qs, p, table, limit).bytes| <= QueriesSize(ViewQueries(qs))
  {
    hide EmitLabel, NameSize, ItemsSegs, Built;
    if qs != [] {
      assert GoodQueryFields(qs[0]);
      LabelWithin(qs[0].name, p, table, limit);
      var e := EmitQuery(qs[0], p, table, limit);
      QueriesWithin(qs[1..], p + |e.bytes|, e.table, limit);
      assert ViewQueries(qs)[1..] == ViewQueries(qs[1..]);
    }
  }

  lemma {:induction false} AnswersWithin(xs: seq<Answer<Label>>, p: nat, table: Table, limit: Option<nat>)
    requires GoodAnswersFields(xs)
    ensures |EmitAnswers(xs, p, table, limit).bytes| <= AnswersSize(ViewAnswers(xs))
  {
    hide EmitAnswer, AnswerSize, ViewAnswer, GoodAnswerFields;
    if xs != [] {
      AnswerWithin(xs[0], p, table, limit);
      var e := EmitAnswer(xs[0], p, table, limit);
      AnswersWithin(xs[1..], p + |e.bytes|, e.table, limit);
      assert ViewAnswers(xs)[1..] == ViewAnswers(xs[1..]);
    }
  }

  /**
   Whatever the table does, and however the names are stored, a message takes no more octets than
   its meaning allows: each name in full and one pointer.
   */
  lemma SerializeWithin(m: Message<Label>, limit: Option<nat>)
    requires GoodFields(m)
    ensures |Serialize(m, limit)| <= Size(View(m))
  {
    hide EmitQueries, EmitAnswers, ViewQueries, ViewAnswers, QueriesSize, AnswersSize, GoodQueriesFields,
      GoodAnswersFields;
    QueriesWithin(m.queries, 12, [], limit);
    var q := EmitQueries(m.queries, 12, [], limit);
    if m.Response? {
      AnswersWithin(m.answers, 12 + |q.bytes|, q.table, limit);
    }
  }

  // ---------------------------------------------------------------- short names

  /** At most four segments of at most 63 octets. */
  predicate Short(n: Name)
  {
    |n| <= BUDGET && forall seg :: seg in n ==> |seg| < 64
  }

  lemma {:induction false} RawShort(n: Name)
    requires forall seg :: seg in n ==> |seg| < 64
    ensures |Raw(n)| <= 64 * |n|
  {
    if n != [] {
      RawShort(n[1..]);
    }
  }

  lemma ShortNameSize(n: Name)
    requires Short(n)
    ensures NameSize(n) <= 258
  {
    hide Raw;
    RawShort(n);
  }

  lemma {:induction false} ShortQueriesSize(qs: seq<Query<Name>>)
    requires forall q :: q in qs ==> Short(q.name)
    ensures QueriesSize(qs) <= 262 * |qs|
  {
    hide NameSize, Short;
    if qs != [] {
      ShortNameSize(qs[0].name);
      ShortQueriesSize(qs[1..]);
    }
  }

  // ---------------------------------------------------------------- announcements

  lemma FourSizes(a: Answer<Name>, b: Answer<Name>, c: Answer<Name>, d: Answer<Name>)
    ensures AnswersSize([a, b, c, d]) == AnswerSize(a) + AnswerSize(b) + AnswerSize(c) + AnswerSize(d)
  {
    hide AnswerSize;
    assert AnswersSize([d]) == AnswerSize(d) + AnswersSize([d][1..]);
    assert [c, d][1..] == [d] && AnswersSize([c, d]) == AnswerSize(c) + AnswersSize([d]);
    assert [b, c, d][1..] == [c, d] && AnswersSize([b, c, d]) == AnswerSize(b) + AnswersSize([c, d]);
    assert [a, b, c, d][1..] == [b, c, d];
  }

  /** The room that the four answers of a service take. */
  lemma ServiceSize(s: ServiceInfo<Name>, c: QClass)
    ensures AnswersSize(AsAnswers(s, c)) <=
            NameSize(s.serviceType) + 3 * NameSize(s.instanceName) + 2 * NameSize(s.hostname) + 63
  {
    hide NameSize, AnswersSize;
    FourSizes(PtrAnswer(s, c), SrvAnswer(s, c), TxtAnswer(s, c), IpAnswer(s, c));
  }

  lemma {:induction false} AnswersSizeConcat(xs: seq<Answer<Name>>, ys: seq<Answer<Name>>)
    ensures AnswersSize(xs + ys) == AnswersSize(xs) + AnswersSize(ys)
  {
    hide AnswerSize;
    if xs == [] {
      assert xs + ys == ys;
    } else {
      AnswersSizeConcat(xs[1..], ys);
      assert (xs + ys)[1..] == xs[1..] + ys;
    }
  }

  predicate ShortService(s: ServiceInfo<Name>)
  {
    Short(s.serviceType) && Short(s.instanceName) && Short(s.hostname)
  }

  /** Services with short names: ten of them fit into pointer reach. */
  lemma {:induction false} ShortServicesSize(ss: seq<ServiceInfo<Name>>, c: QClass)
    requires forall s :: s in ss ==> ShortService(s)
    ensures AnswersSize(AllAnswers(ss, c)) <= 1611 * |ss|
  {
    hide NameSize, Short, AsAnswers, AnswersSize;
    if ss == [] {
      NoAnswersSize();
    } else {
      var n := |ss| - 1;
      var s := ss[n];
      assert ShortService(s);
      ShortServicesSize(ss[..n], c);
      ShortNameSize(s.serviceType);
      ShortNameSize(s.instanceName);
      ShortNameSize(s.hostname);
      ServiceSize(s, c);
      AnswersSizeConcat(AllAnswers(ss[..n], c), AsAnswers(s, c));
    }
  }

  lemma NoAnswersSize()
    ensures AnswersSize([]) == 0
  {
  }

  lemma {:induction false} AnswersCount(xs: seq<Answer<Name>>)
    ensures |xs| <= AnswersSize(xs)
  {
    if xs != [] {
      AnswersCount(xs[1..]);
    }
  }

  lemma {:induction false} QueriesCount(qs: seq<Query<Name>>)
    ensures |qs| <= QueriesSize(qs)
  {
    if qs != [] {
      QueriesCount(qs[1..]);
    }
  }
}

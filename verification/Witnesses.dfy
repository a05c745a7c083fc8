/** Names that do not survive: a host named like its instance, and a chain of five segments. */
module Witnesses {
  import opened Bytes
  import opened Names
  import opened Writers
  import opened LabelParser
  import opened LabelWriter
  import opened NameShape
  import opened NameTrip
  import opened Messages
  import opened MessageTrip
  import opened NoClash
  import opened Readings
  import opened Lookup
  import opened Services
  import opened JoinTheory
  import opened Servers
  import opened Deduplication
  import opened Discovery
  import opened Sizes

  // ---------------------------------------------------------------- how an advertisement starts

  /**
   The table once the first PTR answer of a service is written: it knows the type, and it knows each
   suffix of the instance for that suffix in front of the type.
   */
  ghost predicate Opened(table: Table, serviceType: seq<byte>, instance: seq<byte>)
  {
    && Knows(table, serviceType, StrSegs(serviceType), 0)
    && (forall u :: u in Suffixes(instance) && u !in Suffixes(serviceType) ==>
          Knows(table, u, StrSegs(u) + StrSegs(serviceType), 1))
    && forall u :: u !in Suffixes(serviceType) && u !in Suffixes(instance) ==> Find(table, u).None?
  }

  lemma FirstPtr(serviceType: seq<byte>, instance: seq<byte>, s: ServiceInfo<Label>, c: QClass)
    requires serviceType != [] && s.serviceType == Text(serviceType)
    requires s.instanceName == TwoTexts(instance, serviceType)
    ensures var x := PtrAnswer(s, c);
      && ReadAnswer(x, 12, [], FREE) == Some(PtrAnswer(ViewService(s), c))
      && Opened(EmitAnswer(x, 12, [], FREE).table, serviceType, instance)
  {
    hide EmitLabel, Reading, Find, StrSegs, Suffixes, ViewService, Opened;
    ViewKeeps(s);
    OnePart(serviceType);
    TwoSegs(instance, serviceType);
    FindNothing();
    TextNew(serviceType, 12, []);
    var e := EmitLabel(s.serviceType, 12, [], FREE);
    forall u | u !in Suffixes(serviceType)
      ensures Find(e.table, u).None?
    {
      TextAbsent(serviceType, 12, [], u);
    }
    InstanceOpens(serviceType, instance, 12 + |e.bytes| + 10, e.table);
    TwoKnown(instance, serviceType, 12 + |e.bytes| + 10, e.table, StrSegs(serviceType), 0);
  }

  lemma InstanceOpens(serviceType: seq<byte>, instance: seq<byte>, pos: nat, table: Table)
    requires Knows(table, serviceType, StrSegs(serviceType), 0)
    requires forall u :: u !in Suffixes(serviceType) ==> Find(table, u).None?
    ensures Opened(EmitLabel(TwoTexts(instance, serviceType), pos, table, FREE).table, serviceType, instance)
  {
    hide EmitLabel, Find, StrSegs, Suffixes;
    var name := TwoTexts(instance, serviceType);
    LabelKeeps(name, pos, table, FREE);
    var after := EmitLabel(name, pos, table, FREE).table;
    KnowsMore(table, after, serviceType, StrSegs(serviceType), 0);
    forall u | u !in Suffixes(serviceType)
      ensures u in Suffixes(instance) ==> Knows(after, u, StrSegs(u) + StrSegs(serviceType), 1)
      ensures u !in Suffixes(instance) ==> Find(after, u).None?
    {
      if u in Suffixes(instance) {
        EarlyKnown(instance, serviceType, u, pos, table, StrSegs(serviceType), 0);
      } else {
        TwoAbsent(instance, serviceType, pos, table, StrSegs(serviceType), 0, u);
      }
    }
  }

  lemma FindNothing()
    ensures forall s :: Find([], s).None?
  {
  }

  /** The answers of a list after its first one. */
  lemma AfterFirst(xs: seq<Answer<Label>>, v: Answer<Name>, vs: seq<Answer<Name>>, pos: nat, table: Table)
    requires xs != [] && ReadAnswer(xs[0], pos, table, FREE) == Some(v)
    requires var e := EmitAnswer(xs[0], pos, table, FREE);
      ReadAnswers(xs[1..], pos + |e.bytes|, e.table, FREE) == Some(vs)
    ensures ReadAnswers(xs, pos, table, FREE) == Some([v] + vs)
  {
    hide EmitAnswer, ReadAnswer;
  }

  lemma AdvertisementReads(st: State, ip: LocalIp, vs: seq<Answer<Name>>)
    requires ReadAnswers(Advertisement(st.services, ip).answers, 12, [], FREE) == Some(vs)
    ensures ReadMessage(Advertisement(st.services, ip), FREE) == Some(Response(0, STANDARD_RESPONSE, [], vs))
  {
    hide ReadAnswers, On, AllAnswers;
  }

  /** A service of proper texts is proper. */
  lemma TextsAreProper(serviceType: seq<byte>, instance: seq<byte>, hostname: seq<byte>, s: ServiceInfo<Label>)
    requires ProperText(serviceType) && ProperText(instance) && ProperText(hostname)
    requires s.serviceType == Text(serviceType) && s.instanceName == TwoTexts(instance, serviceType)
    requires s.hostname == Text(hostname)
    ensures ProperService(s)
    ensures ViewService(s) == ServiceInfo(StrSegs(serviceType), StrSegs(instance) + StrSegs(serviceType),
                                          StrSegs(hostname), s.ip, s.netmask, s.port)
  {
    hide StrSegs, Utf8, WireSeg, RunItems;
    OnePart(serviceType);
    OnePart(hostname);
    TwoSegs(instance, serviceType);
  }

  /** Its answers take little room. */
  lemma TextsAreSmall(serviceType: seq<byte>, instance: seq<byte>, hostname: seq<byte>, s: ServiceInfo<Name>, c: QClass)
    requires s.serviceType == StrSegs(serviceType) && s.instanceName == StrSegs(instance) + StrSegs(serviceType)
    requires s.hostname == StrSegs(hostname)
    ensures AnswersSize(AsAnswers(s, c)) <= 4 * |serviceType| + 3 * |instance| + 2 * |hostname| + 84
  {
    hide Raw, StrSegs, AsAnswers, AnswersSize;
    TextLength(serviceType);
    TextLength(instance);
    TextLength(hostname);
    RawConcat(StrSegs(instance), StrSegs(serviceType));
    ServiceSize(s, c);
  }

  // ---------------------------------------------------------------- a host named like its instance

  /** What is told of such a service: the pointer for the host leads into the instance name. */
  lemma InstanceAsHost(serviceType: seq<byte>, instance: seq<byte>, s: ServiceInfo<Label>, told: ServiceInfo<Name>)
    requires serviceType != [] && instance != [] && instance !in Suffixes(serviceType)
    requires s.serviceType == Text(serviceType) && s.instanceName == TwoTexts(instance, serviceType)
    requires s.hostname == Text(instance)
    requires told == ViewService(s).(hostname := StrSegs(instance) + StrSegs(serviceType))
    ensures ReadAnswers(AsAnswers(s, Multicast), 12, [], FREE) == Some(AsAnswers(told, Multicast))
  {
    hide ReadAnswer, EmitAnswer, Find, StrSegs, Suffixes, Reading, ReadAnswers;
    var xs, vs := AsAnswers(s, Multicast), AsAnswers(told, Multicast);
    FirstPtr(serviceType, instance, s, Multicast);
    OnePart(serviceType);
    TwoSegs(instance, serviceType);
    SelfSuffix(instance);
    var w := EmitAnswer(xs[0], 12, [], FREE);
    assert Knows(w.table, instance, StrSegs(instance) + StrSegs(serviceType), 1);
    var whole := StrSegs(instance) + StrSegs(serviceType);
    assert whole[|StrSegs(instance)|..] == StrSegs(serviceType);
    assert KnownName(w.table, s.instanceName, whole) && KnownName(w.table, s.hostname, whole);
    AnswersKnown(xs[1..], vs[1..], 12 + |w.bytes|, w.table, w.table);
    AfterFirst(xs, vs[0], vs[1..], 12, []);
    assert vs == [vs[0]] + vs[1..];
  }

  /**
   A service whose host name is its own instance name, and no suffix of its type, is advertised with
   a wrong host: the octets read as the same service on the host `instance.type`, and that is what
   a receiver joins from them.
   */
  lemma HostNamedLikeInstance(serviceType: seq<byte>, instance: seq<byte>, ip: IpAddr, mask: IpAddr, port: u16)
    requires ProperText(serviceType) && ProperText(instance) && |serviceType| + |instance| <= 255
    requires instance !in Suffixes(serviceType)
    ensures var m := Advertisement([NewService(serviceType, instance, instance, ip, mask, port)], LocalIp(ip, mask));
      var r := ParseMessage(Serialize(m, FREE), GROWING);
      var whole := StrSegs(instance) + StrSegs(serviceType);
      && !GoodNames(m, FREE) && !Back(r, m)
      && r.Some? && r.value.value.Response?
      && (ip != DEFAULT_ADDR && port != 0 ==>
            Join(ViewAnswers(r.value.value.answers)) ==
            [ServiceInfo(StrSegs(serviceType), whole, whole, ip, FullMask(ip), port)])
  {
    hide ReadAnswers, Serialize, ParseMessage, StrSegs, Suffixes, AsAnswers, GoodNames, ReadMessage, ViewAnswers,
      ViewQueries, ProperNames, GoodFields, ProperService, Utf8, WireSegs, AnswersSize, FullMask;
    var s := NewService(serviceType, instance, instance, ip, mask, port);
    var local := LocalIp(ip, mask);
    var m := Advertisement([s], local);
    var told := ViewService(s).(hostname := StrSegs(instance) + StrSegs(serviceType));
    OneOn(s, local);
    TextsAreProper(serviceType, instance, instance, s);
    InstanceAsHost(serviceType, instance, s, told);
    var st := Start([s]);
    AdvertisementReads(st, local, AsAnswers(told, Multicast));
    AdvertisementSmall(s, local, serviceType, instance, instance);
    AdvertisementProper(st, local, FREE);
    Itself(Serialize(m, FREE));
    MessageReads(Serialize(m, FREE), m, FREE);
    WrongHost(s, told, serviceType, instance);
    GoodIsFaithful(m, FREE);
    if ip != DEFAULT_ADDR && port != 0 {
      JoinOne(told, serviceType, instance);
    }
  }

  lemma AdvertisementSmall(s: ServiceInfo<Label>, local: LocalIp, serviceType: seq<byte>, instance: seq<byte>,
                           hostname: seq<byte>)
    requires IpOf(s) == local && ProperService(s)
    requires ViewService(s).serviceType == StrSegs(serviceType) && ViewService(s).hostname == StrSegs(hostname)
    requires ViewService(s).instanceName == StrSegs(instance) + StrSegs(serviceType)
    requires |serviceType| + |instance| + |hostname| <= 600
    ensures |Serialize(Advertisement([s], local), FREE)| <= REACH
  {
    hide StrSegs, AsAnswers, Serialize, ProperAnswer, GoodAnswerFields, ViewService, AnswersSize, ClassOf, ClassCode,
      ProperService, ViewAnswers, On, AllAnswers;
    var m := Advertisement([s], local);
    OneOn(s, local);
    InIsNormal();
    FourProper(s, Multicast);
    assert GoodFields(m);
    SerializeWithin(m, FREE);
    ViewFour(s, Multicast);
    TextsAreSmall(serviceType, instance, hostname, ViewService(s), Multicast);
  }

  lemma WrongHost(s: ServiceInfo<Label>, told: ServiceInfo<Name>, serviceType: seq<byte>, instance: seq<byte>)
    requires serviceType != [] && ViewService(s).hostname == StrSegs(instance)
    requires told == ViewService(s).(hostname := StrSegs(instance) + StrSegs(serviceType))
    ensures AsAnswers(told, Multicast) != ViewAnswers(AsAnswers(s, Multicast))
  {
    hide StrSegs, ViewAnswers, ViewService;
    ViewFour(s, Multicast);
    SomeSegs(serviceType);
    var a, b := AsAnswers(told, Multicast), AsAnswers(ViewService(s), Multicast);
    assert a[1].record.target != b[1].record.target;
  }

  lemma JoinOne(told: ServiceInfo<Name>, serviceType: seq<byte>, instance: seq<byte>)
    requires serviceType != [] && instance != []
    requires told.serviceType == StrSegs(serviceType) && told.ip != DEFAULT_ADDR && told.port != 0
    requires told.instanceName == told.hostname == StrSegs(instance) + StrSegs(serviceType)
    ensures Join(AsAnswers(told, Multicast)) == [told.(netmask := FullMask(told.ip))]
  {
    hide StrSegs, Join, AsAnswers;
    SomeSegs(serviceType);
    SomeSegs(instance);
    assert AllAnswers([told], Multicast) == [] + AsAnswers(told, Multicast);
    assert [] + AsAnswers(told, Multicast) == AsAnswers(told, Multicast);
    AnnouncedServicesReturn([told], Multicast);
  }

  lemma OneOn(s: ServiceInfo<Label>, local: LocalIp)
    requires IpOf(s) == local
    ensures Advertisement([s], local).answers == AsAnswers(s, Multicast)
  {
    assert On([s], local) == [s];
    assert AllAnswers([s], Multicast) == AllAnswers<Label>([], Multicast) + AsAnswers(s, Multicast);
  }

  // ---------------------------------------------------------------- five segments

  /** `t` is in the table, read with `hops` pointers, and no longer text is there. */
  ghost predicate Chain(table: Table, t: seq<byte>, hops: nat)
  {
    && Knows(table, t, StrSegs(t), hops)
    && forall x :: x in table ==> |x.text| <= |t|
  }

  function Dotted(x: Seg, t: seq<byte>): seq<byte>
  {
    x + [DOT] + t
  }

  lemma {:induction false} DottedIs(x: Seg, t: seq<byte>)
    requires DOT !in x
    ensures DotIndex(Dotted(x, t)) == |x| && FirstSeg(Dotted(x, t)) == x && AfterDot(Dotted(x, t)) == t
  {
    if x != [] {
      assert x[0] in x && forall c :: c in x[1..] ==> c in x;
      DottedIs(x[1..], t);
      assert Dotted(x, t)[1..] == Dotted(x[1..], t);
    }
  }

  lemma DottedText(x: Seg, t: seq<byte>)
    requires WireSeg(x) && Utf8(t)
    ensures Utf8(Dotted(x, t))
  {
    assert Utf8([DOT]) by {
      assert CharWidth([DOT]) == 1;
      assert [DOT][1..] == [];
    }
    hide CharWidth;
    Utf8Join(x, [DOT]);
    Utf8Join(x + [DOT], t);
  }

  lemma DottedSegs(x: Seg, t: seq<byte>)
    requires DOT !in x
    ensures StrSegs(Dotted(x, t)) == [x] + StrSegs(t)
  {
    hide DotIndex;
    DottedIs(x, t);
  }

  /** A segment in front of a proper text makes a proper text. */
  lemma DottedProper(x: Seg, t: seq<byte>)
    requires WireSeg(x) && DOT !in x && ProperText(t)
    ensures ProperText(Dotted(x, t)) && StrSegs(Dotted(x, t)) == [x] + StrSegs(t)
  {
    hide DotIndex, WireSeg, StrSegs, CharWidth, Utf8;
    DottedIs(x, t);
    DottedText(x, t);
    assert StrSegs(Dotted(x, t)) == [x] + StrSegs(t) by {
      DottedSegs(x, t);
    }
  }

  lemma OneSegProper(t: Seg)
    requires WireSeg(t) && DOT !in t
    ensures ProperText(t) && |t| < 64
  {
    NoDotAtAll(t);
    assert t[|t| - 1] in t;
    assert StrSegs(t) == [t] + StrSegs([]);
  }

  lemma {:induction false} NoDotAtAll(t: seq<byte>)
    requires DOT !in t
    ensures DotIndex(t) == |t| && FirstSeg(t) == t && AfterDot(t) == []
  {
    if t != [] {
      assert t[0] in t && forall c :: c in t[1..] ==> c in t;
      NoDotAtAll(t[1..]);
    }
  }

  /** One more segment in front of a name in the table: one more pointer. */
  lemma ChainGrows(table: Table, t: seq<byte>, hops: nat, x: Seg, pos: nat)
    requires Chain(table, t, hops) && DOT !in x
    ensures Chain(EmitLabel(Text(Dotted(x, t)), pos, table, FREE).table, Dotted(x, t), hops + 1)
  {
    hide Find, StrSegs, EmitStr, Seal;
    var s := Dotted(x, t);
    var entry := Entry(s, pos, StrSegs(s) + [], 0);
    DottedIs(x, t);
    var r := StrStep(s, true, pos, table, FREE, []);
    FindPrefix(table, table + [entry], t);
    StrStop(t, true, pos + 1 + |x|, table + [entry], FREE, []);
    TextIs(s, pos, table);
    var e := EmitStr(s, true, pos, table, FREE, []);
    assert e.table == table + [entry] && e.hit == Find(table, t);
    var stored := Sealed(entry, e.hit);
    assert Seal(e.table, |table|, e.hit) == table + [stored];
    assert ([x] + StrSegs(t))[..1] == [x];
    FindAppended(table, stored, s);
  }

  lemma ChainStarts(t: seq<byte>, pos: nat)
    requires t != [] && DOT !in t
    ensures Chain(EmitLabel(Text(t), pos, [], FREE).table, t, 0)
  {
    hide Find, StrSegs, EmitStr, Seal;
    NoDotAtAll(t);
    FindNothing();
    TextNew(t, pos, []);
    var entry := Entry(t, pos, StrSegs(t) + [], 0);
    assert [] + [entry] == [entry];
    var r := StrStep(t, true, pos, [], FREE, []);
    StrStop([], true, pos + 1 + |t|, [entry], FREE, []);
    TextIs(t, pos, []);
    var e := EmitStr(t, true, pos, [], FREE, []);
    assert e.table == [entry] && e.hit.None?;
  }

  /** Questions for `t` with more and more segments in front, the longest one twice. */
  function Growing(t: seq<byte>, xs: seq<Seg>): seq<Query<Label>>
    decreases |xs|
  {
    if xs == [] then [PtrQuery(Text(t))]
    else [PtrQuery(Text(Dotted(xs[0], t)))] + Growing(Dotted(xs[0], t), xs[1..])
  }

  lemma {:induction false} GrowingRejected(table: Table, t: seq<byte>, hops: nat, xs: seq<Seg>, pos: nat)
    requires Chain(table, t, hops) && (forall x :: x in xs ==> DOT !in x)
    requires hops + |xs| >= BUDGET
    ensures ReadQueries(Growing(t, xs), pos, table, FREE) == None
    decreases |xs|
  {
    hide Find, EmitLabel, Reading, StrSegs;
    var qs := Growing(t, xs);
    if xs == [] {
      TextKnown(t, pos, table, StrSegs(t), hops);
      assert qs[0].name == Text(t);
    } else {
      var next := Dotted(xs[0], t);
      ChainGrows(table, t, hops, xs[0], pos);
      var e := EmitQuery(qs[0], pos, table, FREE);
      GrowingRejected(e.table, next, hops + 1, xs[1..], pos + |e.bytes|);
      assert qs[1..] == Growing(next, xs[1..]);
    }
  }

  /** Such questions are proper, and small. */
  lemma {:induction false} GrowingProper(t: seq<byte>, xs: seq<Seg>)
    requires ProperText(t) && forall x :: x in xs ==> WireSeg(x) && DOT !in x
    requires |t| + 64 * |xs| <= 400
    ensures var qs := Growing(t, xs);
      && |qs| == |xs| + 1 && (forall q :: q in qs ==> GoodQueryFields(q) && Proper(q.name))
      && QueriesSize(ViewQueries(qs)) <= 407 * (|xs| + 1)
    decreases |xs|
  {
    hide StrSegs, Utf8, ProperText, WireSeg, Proper, GoodQueryFields, ViewQueries, QueriesSize;
    if xs == [] {
      QuestionProper(t, []);
      assert Growing(t, xs) == [PtrQuery(Text(t))] + [];
    } else {
      var next := Dotted(xs[0], t);
      DottedProper(xs[0], t);
      ShortSeg(xs[0]);
      GrowingProper(next, xs[1..]);
      QuestionProper(next, Growing(next, xs[1..]));
    }
  }

  lemma ShortSeg(x: Seg)
    requires WireSeg(x)
    ensures |x| < 64
  {
  }

  lemma QuestionProper(t: seq<byte>, more: seq<Query<Label>>)
    requires ProperText(t)
    ensures GoodQueryFields(PtrQuery(Text(t))) && Proper(Text(t))
    ensures QueriesSize(ViewQueries([PtrQuery(Text(t))] + more)) <= |t| + 7 + QueriesSize(ViewQueries(more))
    ensures QueriesSize(ViewQueries([])) == 0
  {
    hide StrSegs, Utf8, RunItems, ClassOf, ClassCode, TypeOf, TypeCode, ViewQueries, QueriesSize, WireSeg;
    InIsNormal();
    PtrIsNormal();
    OnePart(t);
    QuestionSize(t, more);
    NoQuestions();
  }

  lemma NoQuestions()
    ensures QueriesSize(ViewQueries([])) == 0
  {
  }

  lemma PtrIsNormal()
    ensures TypeOf(TypeCode(PTR)) == PTR
  {
  }

  lemma QuestionSize(t: seq<byte>, more: seq<Query<Label>>)
    requires Segs(Text(t)) == StrSegs(t)
    ensures QueriesSize(ViewQueries([PtrQuery(Text(t))] + more)) <= |t| + 7 + QueriesSize(ViewQueries(more))
  {
    hide StrSegs, Raw, ViewQuery;
    TextLength(t);
    ViewQueriesCons(PtrQuery(Text(t)), more);
    var v, vs := ViewQuery(PtrQuery(Text(t))), ViewQueries(more);
    assert ([v] + vs)[1..] == vs;
    QueryName(t);
  }

  lemma QueryName(t: seq<byte>)
    requires Segs(Text(t)) == StrSegs(t)
    ensures ViewQuery(PtrQuery(Text(t))).name == StrSegs(t)
  {
    hide ItemsSegs, StrSegs;
  }

  /**
   Four segments are the limit: a request for e, d.e, c.d.e, b.c.d.e and twice for a.b.c.d.e, with
   any proper segments, is rejected whole, for its last name takes five pointers.
   */
  lemma FiveSegmentsLost(a: Seg, b: Seg, c: Seg, d: Seg, e: Seg, id: u16)
    requires forall x :: x in [a, b, c, d, e] ==> WireSeg(x) && DOT !in x
    ensures var m := Request(id, STANDARD_REQUEST, [PtrQuery(Text(e))] + Growing(e, [d, c, b, a]));
      ParseMessage(Serialize(m, FREE), GROWING) == None && !GoodNames(m, FREE)
  {
    hide Chain, EmitLabel, Reading, Growing, WireSeg, ProperText, Serialize, ParseMessage, GoodNames, View,
      GoodQueryFields, Proper, ViewQueries, QueriesSize;
    assert e in [a, b, c, d, e];
    var first, xs := PtrQuery(Text(e)), [d, c, b, a];
    var more := Growing(e, xs);
    assert forall x :: x in xs ==> x in [a, b, c, d, e];
    OneSegProper(e);
    FirstQuestion(e, id, xs);
    var m := Request(id, STANDARD_REQUEST, [first] + more);
    ChainStarts(e, 12);
    var w := EmitQuery(first, 12, [], FREE);
    GrowingRejected(w.table, e, 0, xs, 12 + |w.bytes|);
    assert ([first] + more)[1..] == more;
    assert ReadQueries(m.queries, 12, [], FREE) == None;
    Itself(Serialize(m, FREE));
    MessageReads(Serialize(m, FREE), m, FREE);
    GoodIsFaithful(m, FREE);
  }

  lemma FirstQuestion(e: Seg, id: u16, xs: seq<Seg>)
    requires ProperText(e) && |e| < 64 && |xs| == 4 && forall x :: x in xs ==> WireSeg(x) && DOT !in x
    ensures var m := Request(id, STANDARD_REQUEST, [PtrQuery(Text(e))] + Growing(e, xs));
      GoodFields(m) && ProperNames(m) && |Serialize(m, FREE)| <= REACH
  {
    hide WireSeg, Growing, Serialize, ViewQueries, QueriesSize, StrSegs, Utf8, WireSegs, Proper, GoodQueryFields;
    var m := Request(id, STANDARD_REQUEST, [PtrQuery(Text(e))] + Growing(e, xs));
    GrowingProper(e, xs);
    QuestionProper(e, Growing(e, xs));
    RequestFlag();
    SerializeWithin(m, FREE);
  }

  lemma RequestFlag()
    ensures IsRequest(STANDARD_REQUEST)
  {
  }
}

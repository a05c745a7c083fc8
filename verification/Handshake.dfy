/** Question, answer, discovery: two servers exchange packets. */
module Handshake {
  import opened Bytes
  import opened Names
  import opened LabelParser
  import opened Messages
  import opened MessageTrip
  import opened NoClash
  import opened Received
  import opened Services
  import opened JoinTheory
  import opened Servers
  import opened ServerInvariant
  import opened Deduplication
  import opened Discovery
  import opened Sizes

  // ---------------------------------------------------------------- joining deduplicated answers

  lemma StubsSnoc(xs: seq<Answer<Name>>, x: Answer<Name>)
    ensures Stubs(xs + [x]) == Stubs(xs) + if x.record.RecPTR? then [Stub(x)] else []
  {
    LastOf(xs, x);
  }

  lemma StubsFirstsOther(xs: seq<Answer<Name>>, x: Answer<Name>)
    requires !x.record.RecPTR?
    ensures Stubs(Firsts(xs + [x])) == Stubs(Firsts(xs))
  {
    hide Stubs, Firsts;
    FirstsSnoc(xs, x);
    StubsSnoc(Firsts(xs), x);
    assert Firsts(xs) + [] == Firsts(xs) && Stubs(Firsts(xs)) + [] == Stubs(Firsts(xs));
  }

  lemma PtrIsNew(ss: seq<ServiceInfo<Name>>, s: ServiceInfo<Name>, c: QClass)
    requires s !in ss && DistinctInstances(ss + [s])
    ensures PtrAnswer(s, c) !in AllAnswers(ss, c)
  {
    hide AllAnswers;
    AnyAnswer(ss, c, PtrAnswer(s, c));
    assert s in ss + [s] && forall t :: t in ss ==> t in ss + [s];
  }

  lemma AllSnoc(ss: seq<ServiceInfo<Name>>, s: ServiceInfo<Name>, c: QClass)
    ensures AllAnswers(ss + [s], c) ==
            AllAnswers(ss, c) + [PtrAnswer(s, c)] + [SrvAnswer(s, c)] + [TxtAnswer(s, c)] + [IpAnswer(s, c)]
    ensures AllAnswers(ss + [s], c) == AllAnswers(ss, c) + AsAnswers(s, c)
  {
    LastOf(ss, s);
  }

  /** Dropping repeated answers drops just the repeated services. */
  lemma {:induction false} StubsOfFirsts(ss: seq<ServiceInfo<Name>>, c: QClass)
    requires DistinctInstances(ss)
    ensures Stubs(Firsts(AllAnswers(ss, c))) == Bares(Firsts(ss))
  {
    hide AllAnswers, Stubs, AsAnswers, Firsts, PtrAnswer, SrvAnswer, TxtAnswer, IpAnswer;
    if ss == [] {
      NothingFirst(c);
    } else {
      var before, s := ss[..|ss| - 1], ss[|ss| - 1];
      LastSplit(ss);
      StubsOfFirsts(before, c);
      FirstsSnoc(before, s);
      AllSnoc(before, s, c);
      if s in before {
        SaidAlready(before, s, c);
        FirstsGrow(AllAnswers(before, c), AsAnswers(s, c));
        assert Firsts(before) + [] == Firsts(before);
      } else {
        StubsOfNew(before, s, c);
        LastOf(Firsts(before), s);
      }
    }
  }

  lemma NothingFirst(c: QClass)
    ensures AllAnswers<Name>([], c) == [] && Firsts<Answer<Name>>([]) == [] && Stubs([]) == []
    ensures Firsts<ServiceInfo<Name>>([]) == [] && Bares([]) == []
  {
  }

  lemma SaidAlready(ss: seq<ServiceInfo<Name>>, s: ServiceInfo<Name>, c: QClass)
    requires s in ss
    ensures forall v :: v in AsAnswers(s, c) ==> v in AllAnswers(ss, c)
  {
    hide AllAnswers, AsAnswers, Tells;
    forall v | v in AsAnswers(s, c)
      ensures v in AllAnswers(ss, c)
    {
      TellsIs(s, c);
      AnyAnswer(ss, c, v);
    }
  }

  lemma StubsOfNew(ss: seq<ServiceInfo<Name>>, s: ServiceInfo<Name>, c: QClass)
    requires s !in ss && DistinctInstances(ss + [s])
    ensures Stubs(Firsts(AllAnswers(ss + [s], c))) == Stubs(Firsts(AllAnswers(ss, c))) + [Bare(s)]
  {
    hide AllAnswers, Stubs, Firsts;
    var xs, p := AllAnswers(ss, c), PtrAnswer(s, c);
    AllSnoc(ss, s, c);
    PtrIsNew(ss, s, c);
    FirstsSnoc(xs, p);
    StubsSnoc(Firsts(xs), p);
    assert Stub(p) == Bare(s);
    StubsFirstsOther(xs + [p], SrvAnswer(s, c));
    StubsFirstsOther(xs + [p] + [SrvAnswer(s, c)], TxtAnswer(s, c));
    StubsFirstsOther(xs + [p] + [SrvAnswer(s, c)] + [TxtAnswer(s, c)], IpAnswer(s, c));
  }

  lemma FirstsAnnounce(ss: seq<ServiceInfo<Name>>, c: QClass)
    ensures Announce(Firsts(AllAnswers(ss, c)), Firsts(ss), c)
  {
    hide AllAnswers, Firsts, SrvAnswer, IpAnswer, Tells, Announce;
    var xs, ys := AllAnswers(ss, c), Firsts(AllAnswers(ss, c));
    AllAnnounce(ss, c);
    AnnounceGives(xs, ss, c);
    forall x | x in ys
      ensures ToldBy(x, Firsts(ss), c)
    {
      FirstsHas(xs, x);
      AnyAnswer(ss, c, x);
      var s :| s in ss && Tells(x, s, c);
      FirstsHas(ss, s);
    }
    forall s | s in Firsts(ss)
      ensures SrvAnswer(s, c) in ys && IpAnswer(s, c) in ys
    {
      FirstsHas(ss, s);
      FirstsHas(xs, SrvAnswer(s, c));
      FirstsHas(xs, IpAnswer(s, c));
    }
    AnnounceIs(ys, Firsts(ss), c);
  }

  lemma AnnounceGives(xs: seq<Answer<Name>>, ss: seq<ServiceInfo<Name>>, c: QClass)
    requires Announce(xs, ss, c)
    ensures forall s :: s in ss ==> SrvAnswer(s, c) in xs && IpAnswer(s, c) in xs
  {
    hide ToldBy, SrvAnswer, IpAnswer;
  }

  lemma AnnounceIs(xs: seq<Answer<Name>>, ss: seq<ServiceInfo<Name>>, c: QClass)
    requires forall x :: x in xs ==> ToldBy(x, ss, c)
    requires forall s :: s in ss ==> SrvAnswer(s, c) in xs && IpAnswer(s, c) in xs
    ensures Announce(xs, ss, c)
  {
    hide ToldBy, SrvAnswer, IpAnswer;
  }

  /** Joining the deduplicated answers gives every service once, in order of first occurrence. */
  lemma JoinOfFirsts(ss: seq<ServiceInfo<Name>>, c: QClass)
    requires DistinctInstances(ss) && OneAddress(ss) && forall s :: s in ss ==> Complete(s)
    ensures Join(Firsts(AllAnswers(ss, c))) == Masked(Firsts(ss))
  {
    hide AllAnswers, Stubs, Firsts, Join, Complete, Announce;
    StubsOfFirsts(ss, c);
    FirstsAnnounce(ss, c);
    FirstsAre(ss);
    JoinInverts(Firsts(AllAnswers(ss, c)), Firsts(ss), c);
  }

  // ---------------------------------------------------------------- the answering side

  lemma AsksByView(p: Query<Label>, q: Query<Label>, s: ServiceInfo<Label>, from: IpAddr)
    requires ViewQuery(p) == ViewQuery(q)
    ensures Asks(p, s, from) == Asks(q, s, from)
  {
  }

  lemma {:induction false} AskedByView(p: Query<Label>, q: Query<Label>, ss: seq<ServiceInfo<Label>>, from: IpAddr)
    requires ViewQuery(p) == ViewQuery(q)
    ensures Asked(p, ss, from) == Asked(q, ss, from)
  {
    hide Asks, ViewQuery;
    if ss != [] {
      AskedByView(p, q, ss[..|ss| - 1], from);
      AsksByView(p, q, ss[|ss| - 1], from);
    }
  }

  lemma {:induction false} AllAskedByView(ps: seq<Query<Label>>, qs: seq<Query<Label>>, ss: seq<ServiceInfo<Label>>,
                                          from: IpAddr)
    requires |ps| == |qs| && forall i :: 0 <= i < |ps| ==> ViewQuery(ps[i]) == ViewQuery(qs[i])
    ensures AllAsked(ps, ss, from) == AllAsked(qs, ss, from)
  {
    hide Asked, ViewQuery;
    if ps != [] {
      AllAskedByView(ps[..|ps| - 1], qs[..|qs| - 1], ss, from);
      AskedByView(ps[|ps| - 1], qs[|qs| - 1], ss, from);
    }
  }

  /** The answers depend on what the questions mean, not on how their names are stored. */
  lemma AnsweringByView(st: State, ps: seq<Query<Label>>, qs: seq<Query<Label>>, from: IpAddr)
    requires ViewQueries(ps) == ViewQueries(qs)
    ensures |ps| == |qs|
    ensures qs != [] ==> ps[0].qclass == qs[0].qclass && Answering(st, ps, from) == Answering(st, qs, from)
  {
    hide AllAsked, AllAnswers, Dedup;
    ViewQueriesAt(ps);
    ViewQueriesAt(qs);
    forall i | 0 <= i < |ps|
      ensures ViewQuery(ps[i]) == ViewQuery(qs[i])
    {
      assert ViewQueries(ps)[i] == ViewQueries(qs)[i];
    }
    AllAskedByView(ps, qs, st.services, from);
  }

  /** The names of a service: received runs, or text of at most four segments without a clash. */
  ghost predicate FitService(s: ServiceInfo<Label>, early: set<seq<byte>>)
  {
    Fit(s.serviceType, early) && Fit(s.instanceName, early) && Fit(s.hostname, early)
  }

  ghost predicate FitServices(ss: seq<ServiceInfo<Label>>, early: set<seq<byte>>)
  {
    forall s :: s in ss ==> FitService(s, early)
  }

  /** The hypotheses in terms of the texts a service is made from. */
  lemma NewServiceFits(serviceType: seq<byte>, instance: seq<byte>, hostname: seq<byte>,
                       ip: IpAddr, mask: IpAddr, port: u16, early: set<seq<byte>>)
    requires Utf8(serviceType) && Utf8(instance) && Utf8(hostname)
    requires WireSegs(StrSegs(serviceType)) && WireSegs(StrSegs(instance)) && WireSegs(StrSegs(hostname))
    requires |StrSegs(instance)| + |StrSegs(serviceType)| <= BUDGET && |StrSegs(hostname)| <= BUDGET
    requires Suffixes(instance) <= early && Suffixes(serviceType) !! early && Suffixes(hostname) !! early
    ensures FitService(NewService(serviceType, instance, hostname, ip, mask, port), early)
  {
    hide Suffixes, StrSegs, Utf8, WireSeg, RunItems;
    OnePart(serviceType);
    OnePart(hostname);
    TwoSegs(instance, serviceType);
    TwoParts(instance, serviceType);
  }

  lemma TwoParts(a: seq<byte>, b: seq<byte>)
    ensures EarlySuffixes([Str(a), Str(b)]) == Suffixes(a) && LastSuffixes([Str(a), Str(b)]) == Suffixes(b)
  {
    hide Suffixes;
    assert EarlySuffixes([Str(b)]) == {};
  }

  lemma FourNamed(s: ServiceInfo<Label>, c: QClass, early: set<seq<byte>>)
    requires FitService(s, early)
    ensures forall x :: x in AsAnswers(s, c) ==> FitAnswer(x, early)
  {
    hide Fit;
  }

  lemma FourFit(s: ServiceInfo<Label>, c: QClass, early: set<seq<byte>>)
    requires FitService(s, early) && ClassOf(ClassCode(c)) == c
    ensures forall x :: x in AsAnswers(s, c) ==> FitAnswer(x, early) && GoodAnswerFields(x)
  {
    hide Fit, Proper, ClassOf, ClassCode, ProperAnswer, GoodAnswerFields, AsAnswers;
    FitIsProper(s.serviceType, early);
    FitIsProper(s.instanceName, early);
    FitIsProper(s.hostname, early);
    FourProper(s, c);
    FourNamed(s, c, early);
  }

  lemma {:induction false} AllFit(ss: seq<ServiceInfo<Label>>, c: QClass, early: set<seq<byte>>)
    requires FitServices(ss, early) && ClassOf(ClassCode(c)) == c
    ensures forall x :: x in AllAnswers(ss, c) ==> FitAnswer(x, early) && GoodAnswerFields(x)
  {
    hide AsAnswers, FitAnswer, GoodAnswerFields, FitService, ClassOf, ClassCode;
    if ss != [] {
      var n := |ss| - 1;
      LastSplit(ss);
      AllFit(ss[..n], c, early);
      FourFit(ss[n], c, early);
    }
  }

  lemma {:induction false} AskedAreOwn(qs: seq<Query<Label>>, ss: seq<ServiceInfo<Label>>, from: IpAddr,
                                       early: set<seq<byte>>)
    requires FitServices(ss, early)
    ensures FitServices(AllAsked(qs, ss, from), early)
  {
    hide AllAsked, FitService, Asks;
    forall s | s in AllAsked(qs, ss, from)
      ensures FitService(s, early)
    {
      AllAskedReach(qs, ss, from, s);
    }
  }

  lemma AnswersFit(st: State, qs: seq<Query<Label>>, from: IpAddr, early: set<seq<byte>>)
    requires qs != [] && FitServices(st.services, early) && ClassOf(ClassCode(qs[0].qclass)) == qs[0].qclass
    ensures forall x :: x in Answering(st, qs, from) ==> FitAnswer(x, early) && GoodAnswerFields(x)
  {
    hide AllAnswers, AllAsked, Dedup, FitServices, FitAnswer, GoodAnswerFields, ClassOf, ClassCode;
    AskedAreOwn(qs, st.services, from, early);
    AllFit(AllAsked(qs, st.services, from), qs[0].qclass, early);
    DedupIsFirsts(AllAnswers(AllAsked(qs, st.services, from), qs[0].qclass));
  }

  lemma RunsFit(qs: seq<Query<Label>>, early: set<seq<byte>>)
    requires RunQueries(qs)
    ensures forall q :: q in qs ==> Fit(q.name, early)
  {
    hide RunItems;
  }

  /** The reply to a request whose questions mean `asked`. */
  ghost predicate Reply(out: Out, st: State, asked: Message<Label>, from: SocketAddr, early: set<seq<byte>>)
    requires asked.Request? && asked.queries != []
  {
    && out.Send? && out.message.Response?
    && out.message.id == asked.id && out.message.flags == STANDARD_RESPONSE
    && ViewQueries(out.message.queries) == ViewQueries(asked.queries)
    && out.message.answers == Answering(st, asked.queries, from.ip)
    && FitNames(out.message, early)
    && (|out.message.answers| < 0x1_0000 ==> GoodFields(out.message))
    && (Facing(st.localIps, from.ip).Some? ==>
          var sender := Facing(st.localIps, from.ip).value.addr;
          out.cast == if asked.queries[0].qclass == IN then Uni(sender, from) else Multi(sender))
  }

  /** A request from another server, received as octets, is answered for the services it asks for. */
  lemma RequestAnswered(st: State, req: Message<Label>, from: SocketAddr, limit: Option<nat>,
                        early: set<seq<byte>>, own: set<seq<byte>>)
    requires req.Request? && req.queries != [] && req.id != st.txidQuery
    requires GoodFields(req) && FitNames(req, early) && |Serialize(req, limit)| <= REACH
    requires FitServices(st.services, own) && Answering(st, req.queries, from.ip) != []
    ensures Reply(OnPacket(st, Serialize(req, limit), from), st, req, from, own)
  {
    hide Serialize, ParseMessage, ViewQueries, Answering, Fit, FitServices, FitAnswer, GoodQueryFields,
      GoodAnswerFields, GoodNames, Facing, RunItems;
    var b := Serialize(req, limit);
    Itself(b);
    FitMessageReturns(b, req, limit, early);
    MessageReceived(b, GROWING);
    var got := ParseMessage(b, GROWING).value.value;
    AnsweringByView(st, got.queries, req.queries, from.ip);
    FirstClass(got);
    AnswersFit(st, got.queries, from.ip, own);
    RunsFit(got.queries, own);
  }

  lemma FirstClass(m: Message<Label>)
    requires GoodFields(m) && m.queries != []
    ensures ClassOf(ClassCode(m.queries[0].qclass)) == m.queries[0].qclass
  {
    assert GoodQueryFields(m.queries[0]);
  }

  // ---------------------------------------------------------------- the asking side

  lemma {:induction false} MaskedAt(ss: seq<ServiceInfo<Name>>)
    ensures forall i :: 0 <= i < |ss| ==> Masked(ss)[i] == ss[i].(netmask := FullMask(ss[i].ip))
  {
    if ss != [] {
      MaskedAt(ss[..|ss| - 1]);
    }
  }

  /** The first service of the list that is not the server's own. */
  function FirstOther(ss: seq<ServiceInfo<Name>>, st: State): Option<ServiceInfo<Name>>
  {
    if ss == [] then None
    else if !IsSelf(ss[0], st.services) then Some(ss[0])
    else FirstOther(ss[1..], st)
  }

  lemma {:induction false} MatchingIsOther(ms: seq<ServiceInfo<Name>>, ss: seq<ServiceInfo<Name>>, st: State)
    requires |ms| == |ss| && forall i :: 0 <= i < |ss| ==> ms[i] == ss[i].(netmask := FullMask(ss[i].ip))
    requires forall s :: s in ss ==> Handled(s, st.services, st.targets)
    ensures FirstMatching(ms, st) ==
            match FirstOther(ss, st)
            case None => None
            case Some(s) => Some(s.(netmask := FullMask(s.ip)))
    decreases |ss|
  {
    hide IsSelf, Handled;
    if ss != [] {
      MaskHidesNothing(ss[0], st);
      MatchingIsOther(ms[1..], ss[1..], st);
    }
  }

  lemma MaskHidesNothing(s: ServiceInfo<Name>, st: State)
    ensures var m := s.(netmask := FullMask(s.ip));
      && IsSelf(m, st.services) == IsSelf(s, st.services)
      && Handled(m, st.services, st.targets) == Handled(s, st.services, st.targets)
  {
  }

  lemma {:induction false} ServiceQueriesFrom(ss: seq<ServiceInfo<Label>>, q: Query<Label>)
    requires q in ServiceQueries(ss)
    ensures exists s :: s in ss && q == PtrQuery(s.serviceType)
  {
    var n := |ss| - 1;
    LastSplit(ss);
    if q in ServiceQueries(ss[..n]) {
      ServiceQueriesFrom(ss[..n], q);
    }
  }

  lemma {:induction false} TargetQueriesFrom(ts: seq<Target>, ip: LocalIp, q: Query<Label>)
    requires q in TargetQueries(ts, ip)
    ensures exists t :: t in ts && q == PtrQuery(t.serviceType)
  {
    var n := |ts| - 1;
    LastSplit(ts);
    if q in TargetQueries(ts[..n], ip) {
      TargetQueriesFrom(ts[..n], ip, q);
    }
  }

  /** Every question a server sends is for a type it handles. */
  lemma AskedIsHandled(b: State, ip: LocalIp, q: Query<Label>, s: ServiceInfo<Name>)
    requires q in Asking(b, ip).queries && s.serviceType == Segs(q.name)
    ensures Handled(s, b.services, b.targets)
  {
    hide ItemsSegs, On;
    if q in ServiceQueries(On(b.services, ip)) {
      ServiceQueriesFrom(On(b.services, ip), q);
      var o :| o in On(b.services, ip) && q == PtrQuery(o.serviceType);
      OnIs(b.services, ip, o);
      var i :| 0 <= i < |b.services| && b.services[i] == o;
      assert s.serviceType == Segs(b.services[i].serviceType);
    } else {
      TargetQueriesFrom(b.targets, ip, q);
      var t :| t in b.targets && q == PtrQuery(t.serviceType);
      var i :| 0 <= i < |b.targets| && b.targets[i] == t;
      assert s.serviceType == Segs(b.targets[i].serviceType);
    }
  }

  /** The services of `a` that the questions of `b` ask for, each once, in the order of the answers. */
  function Meant(a: State, qs: seq<Query<Label>>, from: IpAddr): seq<ServiceInfo<Name>>
  {
    Firsts(ViewServices(AllAsked(qs, a.services, from)))
  }

  lemma MeantHandled(a: State, b: State, ip: LocalIp, from: IpAddr, s: ServiceInfo<Name>)
    requires s in Meant(a, Asking(b, ip).queries, from)
    ensures Handled(s, b.services, b.targets)
  {
    hide AllAsked, Asking, Handled, Firsts, ViewService, ItemsSegs;
    var qs := Asking(b, ip).queries;
    var asked := AllAsked(qs, a.services, from);
    FirstsHas(ViewServices(asked), s);
    var i :| 0 <= i < |asked| && ViewServices(asked)[i] == s;
    AllAskedReach(qs, a.services, from, asked[i]);
    var q :| q in qs && Asks(q, asked[i], from);
    ViewKeeps(asked[i]);
    AskedIsHandled(b, ip, q, s);
  }

  /** The hypotheses on a service list under which announcing loses nothing. */
  ghost predicate Announceable(ss: seq<ServiceInfo<Label>>)
  {
    var views := ViewServices(ss);
    DistinctInstances(views) && OneAddress(views) && forall s :: s in views ==> Complete(s)
  }

  lemma AskedAnnounceable(st: State, qs: seq<Query<Label>>, from: IpAddr)
    requires Announceable(st.services)
    ensures Announceable(AllAsked(qs, st.services, from))
  {
    hide AllAsked, ViewService, Complete;
    var asked := AllAsked(qs, st.services, from);
    forall t | t in ViewServices(asked)
      ensures t in ViewServices(st.services)
    {
      var i :| 0 <= i < |asked| && ViewServices(asked)[i] == t;
      AllAskedReach(qs, st.services, from, asked[i]);
      var j :| 0 <= j < |st.services| && st.services[j] == asked[i];
      assert ViewServices(st.services)[j] == t;
    }
  }

  lemma AnswersJoin(a: State, qs: seq<Query<Label>>, from: IpAddr)
    requires qs != [] && Announceable(a.services)
    ensures Join(ViewAnswers(Answering(a, qs, from))) == Masked(Meant(a, qs, from))
  {
    hide ViewAnswers, AllAsked, AllAnswers, Firsts, Join, Masked, Dedup, Complete;
    var asked := AllAsked(qs, a.services, from);
    DedupIsFirsts(AllAnswers(asked, qs[0].qclass));
    ViewAll(asked, qs[0].qclass);
    AskedAnnounceable(a, qs, from);
    JoinOfFirsts(ViewServices(asked), qs[0].qclass);
  }

  /** The types a server asks for: received runs, or text of at most four segments. */
  ghost predicate FitTypes(st: State, early: set<seq<byte>>)
  {
    && (forall s :: s in st.services ==> Fit(s.serviceType, early))
    && (forall t :: t in st.targets ==> Fit(t.serviceType, early))
  }

  lemma AskingFit(b: State, ip: LocalIp, early: set<seq<byte>>)
    requires FitTypes(b, early) && |Asking(b, ip).queries| < 0x1_0000
    requires b.nextTxid < 0x1_0000
    ensures FitNames(Asking(b, ip), early) && GoodFields(Asking(b, ip))
  {
    hide Fit, StrItems, RunItems, On, ServiceQueries, TargetQueries;
    forall q | q in Asking(b, ip).queries
      ensures Fit(q.name, early) && GoodQueryFields(q)
    {
      InIsNormal();
      if q in ServiceQueries(On(b.services, ip)) {
        ServiceQueriesFrom(On(b.services, ip), q);
        var o :| o in On(b.services, ip) && q == PtrQuery(o.serviceType);
        OnIs(b.services, ip, o);
      } else {
        TargetQueriesFrom(b.targets, ip, q);
      }
      FitIsProper(q.name, early);
    }
  }

  lemma ReplyReceived(b: State, m: Message<Label>, from: SocketAddr, limit: Option<nat>, early: set<seq<byte>>)
    requires m.Response? && GoodFields(m) && FitNames(m, early) && |Serialize(m, limit)| <= REACH
    ensures OnPacket(b, Serialize(m, limit), from) == HandleResponse(b, ViewAnswers(m.answers))
  {
    hide Serialize, ParseMessage, ViewQueries, ViewAnswers, GoodFields, FitNames, GoodNames, HandleResponse;
    Itself(Serialize(m, limit));
    FitMessageReturns(Serialize(m, limit), m, limit, early);
  }

  /** Answers that do not repeat take no more room than a list that has them all. */
  lemma {:induction false} DistinctSize(xs: seq<Answer<Name>>, ys: seq<Answer<Name>>)
    requires NoRepeats(xs) && forall x :: x in xs ==> x in ys
    ensures AnswersSize(xs) <= AnswersSize(ys)
    decreases |xs|
  {
    hide AnswerSize;
    if xs != [] {
      var x := xs[0];
      assert x in xs;
      var i :| 0 <= i < |ys| && ys[i] == x;
      var before, after := ys[..i], ys[i + 1..];
      assert ys == before + ([x] + after);
      AnswersSizeConcat(before, [x] + after);
      AnswersSizeConcat([x], after);
      AnswersSizeConcat(before, after);
      forall y | y in xs[1..]
        ensures y in before + after
      {
        assert y in xs && y != x;
      }
      DistinctSize(xs[1..], before + after);
    }
  }

  /** The answers to any questions take no more room than those of all the services. */
  lemma ReplySize(a: State, qs: seq<Query<Label>>, from: IpAddr)
    requires qs != []
    ensures AnswersSize(ViewAnswers(Answering(a, qs, from))) <=
            AnswersSize(AllAnswers(ViewServices(a.services), qs[0].qclass))
  {
    hide ViewAnswers, AllAnswers, Answering, Announces, Offered, AnswersSize, ViewServices, NoRepeats;
    var views, all := ViewAnswers(Answering(a, qs, from)), AllAnswers(ViewServices(a.services), qs[0].qclass);
    AnsweringExact(a, qs, from);
    forall v | v in views
      ensures v in all
    {
      AnnouncedIsTheirs(a, qs, from, v);
    }
    DistinctSize(views, all);
  }

  lemma AnnouncedIsTheirs(a: State, qs: seq<Query<Label>>, from: IpAddr, v: Answer<Name>)
    requires qs != [] && Announces(a, qs, from, v)
    ensures v in AllAnswers(ViewServices(a.services), qs[0].qclass)
  {
    hide AllAnswers, Tells, Asks, ViewService;
    var s :| Wanted(a, qs, from, s) && Tells(v, ViewService(s), qs[0].qclass);
    var i :| 0 <= i < |a.services| && a.services[i] == s;
    assert ViewServices(a.services)[i] in ViewServices(a.services);
    AnyAnswer(ViewServices(a.services), qs[0].qclass, v);
  }

  lemma AskingClass(b: State, ip: LocalIp)
    ensures forall q :: q in Asking(b, ip).queries ==> q.qclass == IN
  {
    hide On, ServiceQueries, TargetQueries;
    forall q | q in Asking(b, ip).queries
      ensures q.qclass == IN
    {
      if q in ServiceQueries(On(b.services, ip)) {
        ServiceQueriesFrom(On(b.services, ip), q);
      } else {
        TargetQueriesFrom(b.targets, ip, q);
      }
    }
  }

  /** The questions, and the answers of all the services, fit into pointer reach together. */
  predicate Reaches(qs: seq<Query<Label>>, ss: seq<ServiceInfo<Label>>)
  {
    12 + QueriesSize(ViewQueries(qs)) + AnswersSize(AllAnswers(ViewServices(ss), IN)) <= REACH
  }

  lemma AskingReaches(b: State, ip: LocalIp, ss: seq<ServiceInfo<Label>>, limit: Option<nat>, early: set<seq<byte>>)
    requires FitTypes(b, early) && Reaches(Asking(b, ip).queries, ss)
    ensures FitNames(Asking(b, ip), early) && GoodFields(Asking(b, ip))
    ensures |Serialize(Asking(b, ip), limit)| <= REACH
  {
    hide Asking, FitTypes, FitNames, GoodFields, QueriesSize, AnswersSize, Serialize, AllAnswers, ViewServices;
    AskingIsRequest(b, ip);
    ViewQueriesAt(Asking(b, ip).queries);
    QueriesCount(ViewQueries(Asking(b, ip).queries));
    AskingFit(b, ip, early);
    SerializeWithin(Asking(b, ip), limit);
  }

  lemma ReplyReaches(a: State, m: Message<Label>, qs: seq<Query<Label>>, from: IpAddr, limit: Option<nat>)
    requires qs != [] && qs[0].qclass == IN && Reaches(qs, a.services)
    requires m.Response? && ViewQueries(m.queries) == ViewQueries(qs) && m.answers == Answering(a, qs, from)
    requires |m.answers| < 0x1_0000 ==> GoodFields(m)
    ensures GoodFields(m) && |Serialize(m, limit)| <= REACH
  {
    hide GoodFields, QueriesSize, AnswersSize, Serialize, AllAnswers, ViewServices, Answering, ViewQueries, ViewAnswers;
    ReplySize(a, qs, from);
    ViewAnswersAt(m.answers);
    AnswersCount(ViewAnswers(m.answers));
    SerializeWithin(m, limit);
  }

  /**
   Discovery between two servers, octet for octet. `b` asks on one of its interfaces; `a`, which has
   services of the types asked for in the sender's network and did not send this transaction
   itself, replies; and `b`, by then in state `later`, reports the first service of the reply that
   is not its own, with type, instance, host, address and port as `a` has them, or just waits when
   all of them are its own.
   */
  lemma Discover(a: State, b: State, ip: LocalIp, later: State, from: SocketAddr, back: SocketAddr,
                 limitA: Option<nat>, limitB: Option<nat>, earlyA: set<seq<byte>>, earlyB: set<seq<byte>>)
    requires FitTypes(b, earlyB) && FitServices(a.services, earlyA) && Announceable(a.services)
    requires later.services == b.services && later.targets == b.targets
    requires Reaches(Asking(b, ip).queries, a.services)
    requires var req := Asking(b, ip);
      req.queries != [] && req.id != a.txidQuery && Answering(a, req.queries, from.ip) != []
    ensures var reply := OnPacket(a, Serialize(Asking(b, ip), limitB), from);
      && Reply(reply, a, Asking(b, ip), from, earlyA)
      && OnPacket(later, Serialize(reply.message, limitA), back) ==
         match FirstOther(Meant(a, Asking(b, ip).queries, from.ip), later)
         case None => Wait(PollTimeout(later))
         case Some(s) => Found(s.(netmask := FullMask(s.ip)))
  {
    hide Serialize, OnPacket, FitTypes, FitServices, Announceable, Asking, FitNames, GoodFields, ViewAnswers,
      ViewQueries, Answering, Join, Meant, Handled, FirstMatching, FirstOther, Facing, Reaches;
    var req := Asking(b, ip);
    AskingIsRequest(b, ip);
    AskingReaches(b, ip, a.services, limitB, earlyB);
    RequestAnswered(a, req, from, limitB, earlyB, earlyA);
    var reply := OnPacket(a, Serialize(req, limitB), from);
    AskingClass(b, ip);
    ReplyReaches(a, reply.message, req.queries, from.ip, limitA);
    ReplyReceived(later, reply.message, back, limitA, earlyA);
    AnswersJoin(a, req.queries, from.ip);
    var meant := Meant(a, req.queries, from.ip);
    MaskedAt(meant);
    forall s | s in meant
      ensures Handled(s, b.services, b.targets)
    {
      MeantHandled(a, b, ip, from.ip, s);
    }
    MatchingIsOther(Masked(meant), meant, later);
  }

  lemma AskingIsRequest(b: State, ip: LocalIp)
    ensures Asking(b, ip).Request? && Asking(b, ip).id == b.nextTxid
  {
  }
}

/** A server that hears its own advertisement: when it takes it for another's, and when it cannot. */
module Echo {
  import opened Bytes
  import opened Names
  import opened Writers
  import opened LabelParser
  import opened LabelWriter
  import opened NameShape
  import opened NameTrip
  import opened Messages
  import opened MessageTrip
  import opened NoClash
  import opened Readings
  import opened Lookup
  import opened Services
  import opened JoinTheory
  import opened Servers
  import opened ServerInvariant
  import opened Deduplication
  import opened Discovery
  import opened Handshake
  import opened Sizes
  import opened Witnesses

  // ---------------------------------------------------------------- never, without clashes

  /**
   A server whose names have at most four segments and do not clash ignores its own advertisement,
   as long as that stays within pointer reach.
   */
  lemma FitOwnPacketIgnored(st: State, ip: LocalIp, limit: Option<nat>, from: SocketAddr, early: set<seq<byte>>)
    requires FitServices(st.services, early)
    requires 12 + AnswersSize(AllAnswers(ViewServices(On(st.services, ip)), Multicast)) <= REACH
    ensures OnPacket(st, Serialize(Advertisement(st.services, ip), limit), from) == Wait(PollTimeout(st))
  {
    hide On, AllAnswers, FitAnswer, GoodAnswerFields, AnswersSize, Serialize, OnPacket, ViewServices, FitService,
      ClassOf, ClassCode, GoodNames, ViewAnswers;
    var m, on := Advertisement(st.services, ip), On(st.services, ip);
    forall s | s in on
      ensures FitService(s, early)
    {
      OnIs(st.services, ip, s);
    }
    InIsNormal();
    AllFit(on, Multicast, early);
    ViewAll(on, Multicast);
    ViewAnswersAt(m.answers);
    AnswersCount(ViewAnswers(m.answers));
    ResponseFlag();
    SerializeWithin(m, limit);
    Itself(Serialize(m, limit));
    FitMessageReturns(Serialize(m, limit), m, limit, early);
    OwnPacketIgnored(st, ip, limit, from);
  }

  lemma ResponseFlag()
    ensures !IsRequest(STANDARD_RESPONSE)
  {
  }

  /** Ten such services on an interface always stay within reach. */
  lemma TenServicesIgnored(st: State, ip: LocalIp, limit: Option<nat>, from: SocketAddr, early: set<seq<byte>>)
    requires FitServices(st.services, early) && |On(st.services, ip)| <= 10
    requires forall s :: s in st.services ==> ShortService(ViewService(s))
    ensures OnPacket(st, Serialize(Advertisement(st.services, ip), limit), from) == Wait(PollTimeout(st))
  {
    hide On, AllAnswers, AnswersSize, Serialize, OnPacket, FitServices, ShortService, ViewService, Advertisement;
    var on := On(st.services, ip);
    forall v | v in ViewServices(on)
      ensures ShortService(v)
    {
      var i :| 0 <= i < |on| && ViewServices(on)[i] == v;
      OnIs(st.services, ip, on[i]);
    }
    ShortServicesSize(ViewServices(on), Multicast);
    FitOwnPacketIgnored(st, ip, limit, from, early);
  }

  // ---------------------------------------------------------------- a server that discovers itself

  /** Two services of one host: the instance of the first is `p.q`, that of the second `p`, and its type `q`. */
  datatype Pair = Pair(serviceType: seq<byte>, p: Seg, q: seq<byte>, hostname: seq<byte>, local: LocalIp, port: u16,
                       port2: u16)

  function Instance(c: Pair): seq<byte>
  {
    Dotted(c.p, c.q)
  }

  function First(c: Pair): ServiceInfo<Label>
  {
    NewService(c.serviceType, Instance(c), c.hostname, c.local.addr, c.local.mask, c.port)
  }

  function Second(c: Pair): ServiceInfo<Label>
  {
    NewService(c.q, c.p, c.hostname, c.local.addr, c.local.mask, c.port2)
  }

  ghost predicate Clashing(c: Pair)
  {
    && ProperText(c.serviceType) && ProperText(c.q) && ProperText(c.hostname) && WireSeg(c.p) && DOT !in c.p
    && |c.serviceType| + |c.p| + |c.q| + |c.hostname| <= 255
    && c.q !in Suffixes(c.serviceType)
    && Suffixes(c.hostname) !! Suffixes(c.serviceType) + Suffixes(Instance(c))
    && c.local.addr != DEFAULT_ADDR && c.port2 != 0 && c.port2 != c.port
  }

  /** What the octets tell of the second service: its type, and so its instance, goes on with the first's type. */
  function Told(c: Pair): ServiceInfo<Name>
  {
    var t := StrSegs(c.q) + StrSegs(c.serviceType);
    ServiceInfo(t, [c.p] + t, StrSegs(c.hostname), c.local.addr, c.local.mask, c.port2)
  }

  lemma ClashingTexts(c: Pair)
    requires Clashing(c)
    ensures ProperText(Instance(c)) && StrSegs(Instance(c)) == [c.p] + StrSegs(c.q)
    ensures ProperText(c.p) && StrSegs(c.p) == [c.p] && Suffixes(Instance(c)) == {Instance(c)} + Suffixes(c.q)
    ensures ProperService(First(c)) && ProperService(Second(c))
    ensures ViewService(First(c)) ==
            ServiceInfo(StrSegs(c.serviceType), StrSegs(Instance(c)) + StrSegs(c.serviceType), StrSegs(c.hostname),
                        c.local.addr, c.local.mask, c.port)
    ensures ViewService(Second(c)) ==
            ServiceInfo(StrSegs(c.q), [c.p] + StrSegs(c.q), StrSegs(c.hostname), c.local.addr, c.local.mask, c.port2)
  {
    hide StrSegs, Utf8, WireSegs, ProperService, ProperText, ViewService;
    DottedProper(c.p, c.q);
    DottedIs(c.p, c.q);
    OneSegProper(c.p);
    OneSegIs(c.p);
    TextsAreProper(c.serviceType, Instance(c), c.hostname, First(c));
    TextsAreProper(c.q, c.p, c.hostname, Second(c));
  }

  lemma OneSegIs(t: Seg)
    requires t != [] && DOT !in t
    ensures StrSegs(t) == [t]
  {
    NoDotAtAll(t);
    assert StrSegs(t) == [t] + StrSegs([]);
  }

  /** The host is new when the first SRV answer tells it, and known from then on. */
  lemma FirstSrv(c: Pair, pos: nat, table: Table)
    requires Clashing(c) && Opened(table, c.serviceType, Instance(c))
    ensures var x := SrvAnswer(First(c), Multicast);
      var after := EmitAnswer(x, pos, table, FREE).table;
      && ReadAnswer(x, pos, table, FREE) == Some(SrvAnswer(ViewService(First(c)), Multicast))
      && table <= after && Knows(after, c.hostname, StrSegs(c.hostname), 0)
  {
    hide EmitLabel, Reading, Find, StrSegs, Suffixes, ProperText, ProperService, ViewService;
    ClashingTexts(c);
    var x, i, t := SrvAnswer(First(c), Multicast), Instance(c), c.serviceType;
    TwoKnown(i, t, pos, table, StrSegs(t), 0);
    LabelKeeps(x.name, pos, table, FREE);
    var e := EmitLabel(x.name, pos, table, FREE);
    forall u | u in Suffixes(c.hostname)
      ensures Find(e.table, u).None?
    {
      assert u !in Suffixes(t) + Suffixes(i);
      TwoAbsent(i, t, pos, table, StrSegs(t), 0, u);
    }
    var q := pos + |e.bytes| + 16;
    NotEmpty(c.hostname);
    TextNew(c.hostname, q, e.table);
    LabelKeeps(Text(c.hostname), q, e.table, FREE);
  }

  lemma NotEmpty(s: seq<byte>)
    requires ProperText(s)
    ensures s != []
  {
  }

  /** From then on every last part is in the table, and the second type is there for more than it says. */
  lemma RestKnown(c: Pair, table: Table, start: Table)
    requires Clashing(c) && Opened(start, c.serviceType, Instance(c)) && start <= table
    requires Knows(table, c.hostname, StrSegs(c.hostname), 0)
    ensures var a, b := AsAnswers(First(c), Multicast), AsAnswers(Second(c), Multicast);
      var v, w := AsAnswers(ViewService(First(c)), Multicast), AsAnswers(Told(c), Multicast);
      && KnownAnswer(table, a[2], v[2]) && KnownAnswer(table, a[3], v[3])
      && forall i :: 0 <= i < 4 ==> KnownAnswer(table, b[i], w[i])
  {
    hide Find, StrSegs, Suffixes, ProperText, ProperService, ViewService;
    ClashingTexts(c);
    var i, t, q := Instance(c), c.serviceType, c.q;
    NotEmpty(q);
    SelfSuffix(q);
    assert Knows(start, q, StrSegs(q) + StrSegs(t), 1);
    KnowsMore(start, table, q, StrSegs(q) + StrSegs(t), 1);
    KnowsMore(start, table, t, StrSegs(t), 0);
    Known1(table, c.hostname, StrSegs(c.hostname), 0);
    Known1(table, q, StrSegs(q) + StrSegs(t), 1);
    Known2(table, i, t, StrSegs(t), 0);
    Known2(table, c.p, q, StrSegs(q) + StrSegs(t), 1);
  }

  lemma Known1(table: Table, s: seq<byte>, segs: Name, hops: nat)
    requires Knows(table, s, segs, hops) && hops < BUDGET
    ensures KnownName(table, Text(s), segs)
  {
    hide Find, StrSegs;
  }

  lemma Known2(table: Table, a: seq<byte>, s: seq<byte>, segs: Name, hops: nat)
    requires Knows(table, s, segs, hops) && hops < BUDGET
    ensures KnownName(table, TwoTexts(a, s), StrSegs(a) + segs)
  {
    hide Find, StrSegs;
    assert (StrSegs(a) + segs)[|StrSegs(a)|..] == segs;
  }

  lemma PairReads(c: Pair)
    requires Clashing(c)
    ensures var xs := AsAnswers(First(c), Multicast) + AsAnswers(Second(c), Multicast);
      ReadAnswers(xs, 12, [], FREE) ==
      Some(AsAnswers(ViewService(First(c)), Multicast) + AsAnswers(Told(c), Multicast))
  {
    hide ReadAnswer, EmitAnswer, Find, StrSegs, Suffixes, Opened, KnownAnswer, ProperText, ProperService, ReadAnswers,
      Told, ViewService, First, Second, PtrAnswer, SrvAnswer, TxtAnswer, IpAnswer, Clashing, Knows;
    var a, b := AsAnswers(First(c), Multicast), AsAnswers(Second(c), Multicast);
    var v, w := AsAnswers(ViewService(First(c)), Multicast), AsAnswers(Told(c), Multicast);
    var xs, vs := a + b, v + w;
    PairOpens(c);
    var e := EmitAnswer(a[0], 12, [], FREE);
    var p := 12 + |e.bytes|;
    FirstSrv(c, p, e.table);
    var f := EmitAnswer(a[1], p, e.table, FREE);
    RestKnown(c, f.table, e.table);
    var rest, read := [a[2], a[3]] + b, [v[2], v[3]] + w;
    forall i | 0 <= i < |rest|
      ensures KnownAnswer(f.table, rest[i], read[i])
    {
      if i >= 2 {
        assert rest[i] == b[i - 2] && read[i] == w[i - 2];
      }
    }
    AnswersKnown(rest, read, p + |f.bytes|, f.table, f.table);
    assert xs[1..][0] == a[1] && xs[1..][1..] == rest;
    AfterFirst(xs[1..], v[1], read, p, e.table);
    AfterFirst(xs, v[0], [v[1]] + read, 12, []);
    assert vs == [v[0]] + ([v[1]] + read);
  }

  lemma PairOpens(c: Pair)
    requires Clashing(c)
    ensures var x := PtrAnswer(First(c), Multicast);
      && ReadAnswer(x, 12, [], FREE) == Some(PtrAnswer(ViewService(First(c)), Multicast))
      && Opened(EmitAnswer(x, 12, [], FREE).table, c.serviceType, Instance(c))
  {
    hide ReadAnswer, EmitAnswer, Suffixes, StrSegs, Opened, ViewService;
    NotEmpty(c.serviceType);
    FirstPtr(c.serviceType, Instance(c), First(c), Multicast);
  }

  // ---------------------------------------------------------------- what it joins

  lemma LastOfFour(xs: seq<Answer<Name>>, s: ServiceInfo<Name>, c: QClass)
    ensures LastSrv(xs + AsAnswers(s, c), s.instanceName) == Some((s.hostname, s.port))
    ensures LastAddr(xs + AsAnswers(s, c), s.hostname) == Some((s.ip, FullMask(s.ip)))
  {
    var a, b, d, e := PtrAnswer(s, c), SrvAnswer(s, c), TxtAnswer(s, c), IpAnswer(s, c);
    assert xs + AsAnswers(s, c) == xs + [a] + [b] + [d] + [e];
    LastOf(xs + [a], b);
    LastOf(xs + [a] + [b], d);
    LastOf(xs + [a] + [b] + [d], e);
    assert LastSrv(xs + [a] + [b], s.instanceName) == Some((s.hostname, s.port));
    assert LastSrv(xs + [a] + [b] + [d], s.instanceName) == Some((s.hostname, s.port));
  }

  /** The first of the two stubs takes the port of the second service, told under the same instance name. */
  lemma PairJoins(v: ServiceInfo<Name>, w: ServiceInfo<Name>)
    requires v.instanceName == w.instanceName && v.hostname == w.hostname && v.ip == w.ip
    requires v.serviceType != [] && v.instanceName != [] && v.hostname != [] && w.ip != DEFAULT_ADDR && w.port != 0
    ensures var joined := Join(AsAnswers(v, Multicast) + AsAnswers(w, Multicast));
      joined != [] && joined[0] == v.(netmask := FullMask(v.ip), port := w.port)
  {
    hide AsAnswers, LastSrv, LastAddr, Stubs;
    var xs := AsAnswers(v, Multicast) + AsAnswers(w, Multicast);
    NoStubs();
    assert [] + AsAnswers(v, Multicast) == AsAnswers(v, Multicast);
    StubsOfFour([], v, Multicast);
    StubsOfFour(AsAnswers(v, Multicast), w, Multicast);
    var one, two := [Bare(v)], [Bare(v), Bare(w)];
    assert [] + [Bare(v)] == one && one + [Bare(w)] == two;
    assert Stubs(xs) == two;
    LastOfFour(AsAnswers(v, Multicast), w, Multicast);
    assert two[..1] == one && one[..0] == [];
    assert Resolve(Bare(v), xs) == v.(netmask := FullMask(v.ip), port := w.port);
    assert Resolved(one, xs) == [v.(netmask := FullMask(v.ip), port := w.port)];
  }

  lemma PairMatches(c: Pair, st: State, r: ServiceInfo<Name>, more: seq<ServiceInfo<Name>>)
    requires Clashing(c) && st.services == [First(c), Second(c)]
    requires r == ViewService(First(c)).(netmask := FullMask(c.local.addr), port := c.port2)
    ensures FirstMatching([r] + more, st) == Some(r)
  {
    hide StrSegs, Suffixes, ProperText, ProperService, ViewService, FullMask;
    ClashingTexts(c);
    ViewKeeps(First(c));
    ViewKeeps(Second(c));
    NotEmpty(c.serviceType);
    SomeSegs(c.serviceType);
    assert r.serviceType == Segs(st.services[0].serviceType);
    assert |r.instanceName| == 1 + |StrSegs(c.q)| + |StrSegs(c.serviceType)|;
  }

  /**
   A server that discovers itself. Two services on one interface, of one host: the first has an
   instance `p.q`, and the second has the type `q`. The type is written as a pointer into the
   instance of the first, so the instance of the second reads as that of the first, whose PTR is
   then joined with the port of the second; and that is a service the server does not know as its
   own.
   */
  lemma HearsItself(c: Pair, st: State, from: SocketAddr)
    requires Clashing(c) && st.services == [First(c), Second(c)]
    ensures OnPacket(st, Serialize(Advertisement(st.services, c.local), FREE), from) ==
            Found(ServiceInfo(StrSegs(c.serviceType), StrSegs(Instance(c)) + StrSegs(c.serviceType),
                              StrSegs(c.hostname), c.local.addr, FullMask(c.local.addr), c.port2))
  {
    hide OnPacket, Serialize, Advertisement, StrSegs, Suffixes, AsAnswers, ProperText, ProperService, ReadAnswers, Join,
      FirstMatching, ReadMessage, FullMask, ViewService, Clashing, First, Second;
    PairReads(c);
    TwoOn(c, st);
    var v, w := ViewService(First(c)), Told(c);
    AdvertisementReads(st, c.local, AsAnswers(v, Multicast) + AsAnswers(w, Multicast));
    PairSmall(c, st);
    ClashingTexts(c);
    PairTold(c);
    OwnPacketExactly(st, c.local, FREE, from);
    PairJoins(v, w);
    var joined := Join(AsAnswers(v, Multicast) + AsAnswers(w, Multicast));
    PairMatches(c, st, joined[0], joined[1..]);
    assert joined == [joined[0]] + joined[1..];
  }

  /** Such a server: type `a`, instances `p.q` and `p`, host `h`, ports 80 and 81. */
  lemma HearsItselfAt(st: State, from: SocketAddr)
    requires var local := LocalIp(V4([10, 0, 0, 1]), V4([255, 255, 255, 0]));
      st.services == [NewService([97], [112, 46, 113], [104], local.addr, local.mask, 80),
                      NewService([113], [112], [104], local.addr, local.mask, 81)]
    ensures var local := LocalIp(V4([10, 0, 0, 1]), V4([255, 255, 255, 0]));
      OnPacket(st, Serialize(Advertisement(st.services, local), FREE), from) ==
      Found(ServiceInfo([[97]], [[112], [113], [97]], [[104]], local.addr, FULL_V4, 81))
  {
    hide OnPacket, Serialize, Advertisement, Clashing, StrSegs, ProperText, WireSeg, Suffixes;
    var local := LocalIp(V4([10, 0, 0, 1]), V4([255, 255, 255, 0]));
    var c := Pair([97], [112], [113], [104], local, 80, 81);
    assert Instance(c) == [112, 46, 113];
    PairClashes(c);
    Letter(97);
    Letter(104);
    assert [[112], [113]] + [[97]] == [[112], [113], [97]];
    HearsItself(c, st, from);
  }

  lemma Letter(x: byte)
    requires x < 0x80 && x != DOT
    ensures WireSeg([x]) && DOT !in [x] && ProperText([x]) && StrSegs([x]) == [[x]] && Suffixes([x]) == {[x]}
  {
    assert CharWidth([x]) == 1;
    assert [x][1..] == [];
    NoDotAtAll([x]);
    OneSegProper([x]);
    OneSegIs([x]);
    assert Suffixes([]) == {};
  }

  lemma PairClashes(c: Pair)
    requires c.serviceType == [97] && c.p == [112] && c.q == [113] && c.hostname == [104]
    requires c.local.addr == V4([10, 0, 0, 1]) && c.port == 80 && c.port2 == 81
    ensures Clashing(c)
    ensures StrSegs(Instance(c)) == [[112], [113]]
  {
    hide StrSegs, Utf8, ProperText, WireSeg;
    Letter(97);
    Letter(112);
    Letter(113);
    Letter(104);
    DottedIs(c.p, c.q);
    DottedProper(c.p, c.q);
    assert Suffixes(Instance(c)) == {Instance(c)} + Suffixes([113]);
    assert c.local.addr.v4[0] != DEFAULT_ADDR.v4[0];
  }

  lemma PairTold(c: Pair)
    requires Clashing(c)
    ensures var v, w := ViewService(First(c)), Told(c);
      && v.instanceName == w.instanceName && v.hostname == w.hostname && v.ip == w.ip == c.local.addr
      && v.serviceType != [] && v.instanceName != [] && v.hostname != []
      && w.ip != DEFAULT_ADDR && w.port == c.port2 != 0
  {
    hide StrSegs, Suffixes, ProperText, ProperService, ViewService;
    ClashingTexts(c);
    NotEmpty(c.serviceType);
    NotEmpty(c.hostname);
    SomeSegs(c.serviceType);
    SomeSegs(c.hostname);
    Assoc([c.p], StrSegs(c.q), StrSegs(c.serviceType));
  }

  lemma TwoOn(c: Pair, st: State)
    requires st.services == [First(c), Second(c)]
    ensures Advertisement(st.services, c.local).answers ==
            AsAnswers(First(c), Multicast) + AsAnswers(Second(c), Multicast)
    ensures Advertisement(st.services, c.local).Response? && Advertisement(st.services, c.local).queries == []
    ensures Advertisement(st.services, c.local).flags == STANDARD_RESPONSE
  {
    hide AsAnswers;
    var ss := st.services;
    assert ss[..1] == [First(c)] && ss[..1][..0] == [];
    assert On(ss[..1], c.local) == [First(c)];
    assert On(ss, c.local) == [First(c)] + [Second(c)] == ss;
    assert AllAnswers(ss[..1], Multicast) == [] + AsAnswers(First(c), Multicast) == AsAnswers(First(c), Multicast);
  }

  lemma PairSmall(c: Pair, st: State)
    requires Clashing(c) && st.services == [First(c), Second(c)]
    ensures |Serialize(Advertisement(st.services, c.local), FREE)| <= REACH
  {
    hide StrSegs, Suffixes, AsAnswers, ProperText, Serialize, Advertisement, ProperAnswer, GoodAnswerFields,
      ViewService, AnswersSize, ClassOf, ClassCode, ProperService, ViewAnswers, First, Second;
    var m := Advertisement(st.services, c.local);
    var a, b := AsAnswers(First(c), Multicast), AsAnswers(Second(c), Multicast);
    var v, w := ViewService(First(c)), ViewService(Second(c));
    ClashingTexts(c);
    TwoOn(c, st);
    InIsNormal();
    FourProper(First(c), Multicast);
    FourProper(Second(c), Multicast);
    ResponseFlag();
    assert GoodFields(m);
    SerializeWithin(m, FREE);
    ViewFour(First(c), Multicast);
    ViewFour(Second(c), Multicast);
    ViewConcat(a, b);
    AnswersSizeConcat(AsAnswers(v, Multicast), AsAnswers(w, Multicast));
    TextsAreSmall(c.serviceType, Instance(c), c.hostname, v, Multicast);
    TextsAreSmall(c.q, c.p, c.hostname, w, Multicast);
  }
}

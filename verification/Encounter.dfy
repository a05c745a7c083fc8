/** A whole discovery from the texts and addresses two programs start with. */
module Encounter {
  import opened Bytes
  import opened Names
  import opened LabelParser
  import opened NameShape
  import opened Messages
  import opened MessageTrip
  import opened NoClash
  import opened Services
  import opened JoinTheory
  import opened Servers
  import opened ServerInvariant
  import opened Deduplication
  import opened Handshake
  import opened Sizes

  /** What a caller can check of a service: at most four segments, and no suffix in two roles. */
  predicate Announced(serviceType: seq<byte>, instance: seq<byte>, hostname: seq<byte>, ip: IpAddr, port: u16)
  {
    && ProperText(serviceType) && ProperText(instance) && ProperText(hostname)
    && |StrSegs(instance)| + |StrSegs(serviceType)| <= BUDGET && |StrSegs(hostname)| <= BUDGET
    && Suffixes(instance) !! Suffixes(serviceType) && Suffixes(instance) !! Suffixes(hostname)
    && ip != DEFAULT_ADDR && port != 0
  }

  /** The only question of the asking server. */
  lemma OneQuestion(serviceType: seq<byte>, near: LocalIp)
    ensures var b := Queried(Start([]), serviceType, near);
      && b.services == [] && b.targets == [Target(Label([Str(serviceType)]), near)] && b.localIps == [near]
      && Asking(b, near) == Request(1, STANDARD_REQUEST, [PtrQuery(Label([Str(serviceType)]))])
  {
    var t := Target(Label([Str(serviceType)]), near);
    assert TargetQueries([t][..0], near) == [];
    assert TargetQueries([t], near) == [] + [PtrQuery(t.serviceType)];
    assert On<Label>([], near) == [];
  }

  lemma OnlyAsked(q: Query<Label>, s: ServiceInfo<Label>, from: IpAddr)
    requires Asks(q, s, from)
    ensures AllAsked([q], [s], from) == [s]
  {
    hide Asks;
    assert Asked(q, [s][..0], from) == [];
    assert Asked(q, [s], from) == [s];
    assert AllAsked([q][..0], [s], from) == [];
  }

  /** There is an answer to that question. */
  lemma SomeAnswers(st: State, q: Query<Label>, s: ServiceInfo<Label>, from: IpAddr)
    requires st.services == [s] && Asks(q, s, from)
    ensures Answering(st, [q], from) != []
  {
    hide AsAnswers, Asks, AllAsked, Dedup, ViewAnswers;
    OnlyAsked(q, s, from);
    assert AllAnswers([s], q.qclass) == AllAnswers([s][..0], q.qclass) + AsAnswers(s, q.qclass);
    NotEmptied(AllAnswers([s], q.qclass));
  }

  lemma NotEmptied(xs: seq<Answer<Label>>)
    requires xs != []
    ensures Dedup(xs) != []
  {
    DedupIsFirsts(xs);
    FirstsAre(ViewAnswers(xs));
    assert ViewAnswer(xs[0]) in ViewAnswers(xs);
  }

  lemma MeantOnly(a: State, q: Query<Label>, s: ServiceInfo<Label>, from: IpAddr)
    requires a.services == [s] && Asks(q, s, from)
    ensures Meant(a, [q], from) == [ViewService(s)]
  {
    hide Asks, AllAsked, ViewService;
    OnlyAsked(q, s, from);
    assert ViewServices([s]) == [ViewService(s)];
    assert Firsts([ViewService(s)][..0]) == [];
  }

  /** One question and one service with short names are well within reach. */
  lemma OneReaches(q: Query<Label>, s: ServiceInfo<Label>)
    requires Short(Segs(q.name)) && ShortService(ViewService(s))
    ensures Reaches([q], [s])
  {
    hide Short, ItemsSegs, QueriesSize, AnswersSize, AllAnswers, ViewService;
    ViewQueriesAt([q]);
    ShortQueriesSize(ViewQueries([q]));
    assert ViewServices([s]) == [ViewService(s)];
    ShortServicesSize(ViewServices([s]), IN);
  }

  /** The names of such a service, as the theorems on messages want them. */
  lemma ServiceReady(serviceType: seq<byte>, instance: seq<byte>, hostname: seq<byte>, ip: IpAddr, mask: IpAddr,
                     port: u16)
    requires Announced(serviceType, instance, hostname, ip, port)
    ensures var s := NewService(serviceType, instance, hostname, ip, mask, port);
      && FitServices([s], Suffixes(instance)) && Announceable([s])
      && ShortService(ViewService(s))
      && ViewService(s) == ServiceInfo(StrSegs(serviceType), StrSegs(instance) + StrSegs(serviceType),
                                       StrSegs(hostname), ip, mask, port)
  {
    hide Suffixes, StrSegs, Utf8;
    var s := NewService(serviceType, instance, hostname, ip, mask, port);
    NewServiceFits(serviceType, instance, hostname, ip, mask, port, Suffixes(instance));
    OnePart(serviceType);
    OnePart(hostname);
    SomeSegs(serviceType);
    SomeSegs(hostname);
    TwoSegs(instance, serviceType);
    assert ViewServices([s]) == [ViewService(s)];
  }

  lemma AskerReady(serviceType: seq<byte>, near: LocalIp, early: set<seq<byte>>)
    requires ProperText(serviceType) && |StrSegs(serviceType)| <= BUDGET && Suffixes(serviceType) !! early
    ensures FitTypes(Queried(Start([]), serviceType, near), early)
  {
    hide Suffixes, StrSegs, Utf8;
    OneQuestion(serviceType, near);
    OnePart(serviceType);
  }

  lemma NothingOwn(s: ServiceInfo<Name>, st: State)
    requires st.services == []
    ensures FirstOther([s], st) == Some(s)
  {
  }

  /**
   Discovery from the start. One program has a service with proper, distinct texts; the other has
   nothing and calls `query` for its type. Its first timeout sends a question; that packet makes the
   first program reply to it directly; and that reply makes it report the service, with type,
   instance, host, address and port as they were given.
   */
  lemma Meet(serviceType: seq<byte>, instance: seq<byte>, hostname: seq<byte>, ip: IpAddr, mask: IpAddr, port: u16,
             near: LocalIp, now: nat, from: SocketAddr, back: SocketAddr, limitA: Option<nat>, limitB: Option<nat>)
    requires Announced(serviceType, instance, hostname, ip, port) && SameNetwork(ip, mask, from.ip)
    ensures var s := NewService(serviceType, instance, hostname, ip, mask, port);
      var (later, ask) := OnTimeout(Queried(Start([]), serviceType, near), now);
      && ask.Send? && ask.cast == Multi(near.addr)
      && var reply := OnPacket(Start([s]), Serialize(ask.message, limitB), from);
      && reply.Send? && reply.cast == Uni(ip, from)
      && OnPacket(later, Serialize(reply.message, limitA), back) ==
         Found(ServiceInfo(StrSegs(serviceType), StrSegs(instance) + StrSegs(serviceType), StrSegs(hostname),
                           ip, FullMask(ip), port))
  {
    hide OnPacket, Serialize, Answering, Meant, Fit, Suffixes, StrSegs, Utf8, ItemsSegs, Announceable, SameNetwork,
      AsAnswers, Asking, Short, GoodFields, FitNames, ViewQueries, FullMask, FitTypes, FitServices,
      ViewService, FirstOther;
    var s := NewService(serviceType, instance, hostname, ip, mask, port);
    var a, b := Start([s]), Queried(Start([]), serviceType, near);
    var early := Suffixes(instance);
    ServiceReady(serviceType, instance, hostname, ip, mask, port);
    OneQuestion(serviceType, near);
    var q := PtrQuery(Label([Str(serviceType)]));
    SomeAnswers(a, q, s, from.ip);
    MeantOnly(a, q, s, from.ip);
    var (later, ask) := OnTimeout(b, now);
    AskerReady(serviceType, near, early);
    OnePart(serviceType);
    OneReaches(q, s);
    NothingOwn(ViewService(s), later);
    Discover(a, b, near, later, from, back, limitA, limitB, early, early);
  }
}

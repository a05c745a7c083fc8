/** What a server does with a packet, told from the octets and the services alone. */
module Outcomes {
  import opened Bytes
  import opened Names
  import opened Writers
  import opened LabelParser
  import opened Messages
  import opened MessageTrip
  import opened Readings
  import opened Standard
  import opened Acceptance
  import opened Services
  import opened JoinTheory
  import opened JoinExact
  import opened Servers
  import opened ServerInvariant
  import opened Deduplication
  import opened Discovery

  // ---------------------------------------------------------------- responses

  /** A service or a target of the server has this type. */
  ghost predicate Interests(st: State, t: Name)
  {
    || (exists o :: o in st.services && Segs(o.serviceType) == t)
    || (exists o :: o in st.targets && Segs(o.serviceType) == t)
  }

  /** One of the server's own: same instance, address and port. */
  ghost predicate Owns(st: State, s: ServiceInfo<Name>)
  {
    exists o :: o in st.services && Segs(o.instanceName) == s.instanceName && o.ip == s.ip && o.port == s.port
  }

  /** PTR answer `k` tells the server of a service it is looking for, and that is not its own. */
  ghost predicate News(st: State, xs: seq<Answer<Name>>, k: nat, s: ServiceInfo<Name>)
  {
    Finds(xs, k, s) && Interests(st, s.serviceType) && !Owns(st, s)
  }

  lemma MatchingIs(st: State, s: ServiceInfo<Name>)
    ensures Matching(s, st) <==> Interests(st, s.serviceType) && !Owns(st, s)
  {
    hide ItemsSegs;
    if exists o :: o in st.services && Segs(o.serviceType) == s.serviceType {
      var o :| o in st.services && Segs(o.serviceType) == s.serviceType;
      var i :| 0 <= i < |st.services| && st.services[i] == o;
      assert s.serviceType == Segs(st.services[i].serviceType);
    }
    if exists o :: o in st.targets && Segs(o.serviceType) == s.serviceType {
      var o :| o in st.targets && Segs(o.serviceType) == s.serviceType;
      var i :| 0 <= i < |st.targets| && st.targets[i] == o;
      assert s.serviceType == Segs(st.targets[i].serviceType);
    }
    if Owns(st, s) {
      var o :| o in st.services && Segs(o.instanceName) == s.instanceName && o.ip == s.ip && o.port == s.port;
      var i :| 0 <= i < |st.services| && st.services[i] == o;
      assert s.instanceName == Segs(st.services[i].instanceName);
    }
  }

  lemma {:induction false} FirstIs(ss: seq<ServiceInfo<Name>>, st: State) returns (n: nat)
    requires FirstMatching(ss, st).Some?
    ensures n < |ss| && FirstMatching(ss, st) == Some(ss[n]) && Matching(ss[n], st)
    ensures forall i :: 0 <= i < n ==> !Matching(ss[i], st)
  {
    hide Matching;
    if Matching(ss[0], st) {
      n := 0;
    } else {
      n := FirstIs(ss[1..], st);
      n := n + 1;
      forall i | 0 <= i < n
        ensures !Matching(ss[i], st)
      {
        assert i > 0 ==> ss[i] == ss[1..][i - 1];
      }
    }
  }

  lemma FirstNews(st: State, xs: seq<Answer<Name>>)
    ensures var out := HandleResponse(st, xs);
      if exists k: nat, s :: News(st, xs, k, s) then
        && out.Found?
        && exists k: nat :: News(st, xs, k, out.service) && forall i: nat, s :: News(st, xs, i, s) ==> k <= i
      else out == Wait(PollTimeout(st))
  {
    hide Join, Matching, Finds, Interests, Owns;
    var found, out := Join(xs), HandleResponse(st, xs);
    var ks := JoinExactly(xs);
    forall s
      ensures Matching(s, st) <==> Interests(st, s.serviceType) && !Owns(st, s)
    {
      MatchingIs(st, s);
    }
    NoneMatches(found, st);
    if out.Found? {
      var n := FirstIs(found, st);
      assert News(st, xs, ks[n], found[n]);
      forall i: nat, s | News(st, xs, i, s)
        ensures ks[n] <= i
      {
        InBounds(xs, i, s);
        var o :| 0 <= o < |ks| && ks[o] == i;
        OneFound(xs, i, s, found[o]);
        assert Matching(found[o], st);
      }
    }
  }

  /**
   A packet that reads as a response: the server reports the service found by the first PTR answer
   that is news to it, and waits if and only if there is none.
   */
  lemma ResponseExactly(st: State, data: seq<byte>, from: SocketAddr)
    requires MessageAt(data, false).Some? && MessageAt(data, false).value.value.Response?
    ensures var xs, out := MessageAt(data, false).value.value.answers, OnPacket(st, data, from);
      if exists k: nat, s :: News(st, xs, k, s) then
        && out.Found?
        && exists k: nat :: News(st, xs, k, out.service) && forall i: nat, s :: News(st, xs, i, s) ==> k <= i
      else out == Wait(PollTimeout(st))
  {
    hide MessageAt, ParseMessage, News, HandleResponse, ViewAnswers, ViewQueries;
    Accepted(data);
    FirstNews(st, MessageAt(data, false).value.value.answers);
  }

  /** Octets that do not read as a message are ignored. */
  lemma OthersIgnored(st: State, data: seq<byte>, from: SocketAddr)
    requires MessageAt(data, false).None?
    ensures OnPacket(st, data, from) == Wait(PollTimeout(st))
  {
    hide MessageAt, ParseMessage;
    Accepted(data);
  }

  // ---------------------------------------------------------------- requests

  /** Some question asks by PTR for the type of this service, from its own network. */
  ghost predicate AskedFor(qs: seq<Query<Name>>, s: ServiceInfo<Label>, from: IpAddr)
  {
    SameNetwork(s.ip, s.netmask, from) && exists q :: q in qs && q.qtype == PTR && q.name == Segs(s.serviceType)
  }

  /** One of the four answers that announce the service, in class `c` where the class is not fixed. */
  predicate Announcement(v: Answer<Name>, s: ServiceInfo<Label>, c: QClass)
  {
    || v == Answer(Segs(s.serviceType), PTR, IN, 4500, RecPTR(Segs(s.instanceName)))
    || v == Answer(Segs(s.instanceName), SRV, c, 120, RecSRV(0, 0, s.port, Segs(s.hostname)))
    || v == Answer(Segs(s.instanceName), TXT, c, 120, RecTXT([0]))
    || (s.ip.V4? && v == Answer(Segs(s.hostname), A, c, 120, RecA(s.ip.v4)))
    || (s.ip.V6? && v == Answer(Segs(s.hostname), AAAA, IN, 120, RecAAAA(s.ip.v6)))
  }

  lemma AnnouncementIs(v: Answer<Name>, s: ServiceInfo<Label>, c: QClass)
    ensures Tells(v, ViewService(s), c) <==> Announcement(v, s, c)
  {
    hide ItemsSegs;
  }

  /** The first interface of the server in the sender's network. */
  ghost predicate Faces(st: State, from: IpAddr, i: nat)
  {
    && i < |st.localIps| && SameNetwork(st.localIps[i].addr, st.localIps[i].mask, from)
    && forall j :: 0 <= j < i ==> !SameNetwork(st.localIps[j].addr, st.localIps[j].mask, from)
  }

  lemma {:induction false} FacingIs(ips: seq<LocalIp>, from: IpAddr) returns (i: nat)
    requires Facing(ips, from).Some?
    ensures i < |ips| && Facing(ips, from) == Some(ips[i]) && SameNetwork(ips[i].addr, ips[i].mask, from)
    ensures forall j :: 0 <= j < i ==> !SameNetwork(ips[j].addr, ips[j].mask, from)
  {
    hide SameNetwork;
    if SameNetwork(ips[0].addr, ips[0].mask, from) {
      i := 0;
    } else {
      i := FacingIs(ips[1..], from);
      i := i + 1;
      forall j | 0 <= j < i
        ensures !SameNetwork(ips[j].addr, ips[j].mask, from)
      {
        assert j > 0 ==> ips[j] == ips[1..][j - 1];
      }
    }
  }

  /** The reply to questions `qs` with this id: everything that was asked for, once. */
  ghost predicate Replies(out: Out, st: State, id: u16, qs: seq<Query<Name>>, from: SocketAddr)
    requires qs != []
  {
    && out.Send? && out.message.Response?
    && out.message.id == id && out.message.flags == 0x8400
    && ViewQueries(out.message.queries) == qs
    && NoRepeats(ViewAnswers(out.message.answers))
    && (forall v :: v in ViewAnswers(out.message.answers) <==>
          exists s :: s in st.services && AskedFor(qs, s, from.ip) && Announcement(v, s, qs[0].qclass))
    && exists i: nat :: Faces(st, from.ip, i) &&
         var sender := st.localIps[i].addr;
         out.cast == if qs[0].qclass == IN then Uni(sender, from) else Multi(sender)
  }

  lemma AsksIs(q: Query<Label>, s: ServiceInfo<Label>, from: IpAddr)
    ensures Asks(q, s, from) <==>
            SameNetwork(s.ip, s.netmask, from) && ViewQuery(q).qtype == PTR && ViewQuery(q).name == Segs(s.serviceType)
  {
    hide ItemsSegs, SameNetwork;
  }

  lemma AskedForIs(qs: seq<Query<Label>>, s: ServiceInfo<Label>, from: IpAddr)
    ensures AskedFor(ViewQueries(qs), s, from) <==> exists q :: q in qs && Asks(q, s, from)
  {
    hide Asks, ViewQuery, ViewQueries, SameNetwork, ItemsSegs;
    ViewQueriesAt(qs);
    var vs := ViewQueries(qs);
    if exists q :: q in qs && Asks(q, s, from) {
      var q :| q in qs && Asks(q, s, from);
      var i :| 0 <= i < |qs| && qs[i] == q;
      AsksIs(q, s, from);
      assert vs[i] in vs && vs[i] == ViewQuery(q);
    }
    if AskedFor(vs, s, from) {
      var v :| v in vs && v.qtype == PTR && v.name == Segs(s.serviceType);
      var i :| 0 <= i < |vs| && vs[i] == v;
      AsksIs(qs[i], s, from);
      assert qs[i] in qs;
    }
  }

  lemma AnnouncesIs(st: State, qs: seq<Query<Label>>, from: IpAddr, v: Answer<Name>)
    requires qs != []
    ensures Announces(st, qs, from, v) <==>
            exists s :: s in st.services && AskedFor(ViewQueries(qs), s, from) && Announcement(v, s, qs[0].qclass)
  {
    hide Asks, Tells, AskedFor, Announcement, ViewService, ViewQueries;
    forall s
      ensures Wanted(st, qs, from, s) <==> s in st.services && AskedFor(ViewQueries(qs), s, from)
      ensures Tells(v, ViewService(s), qs[0].qclass) <==> Announcement(v, s, qs[0].qclass)
    {
      AskedForIs(qs, s, from);
      AnnouncementIs(v, s, qs[0].qclass);
    }
  }

  /** There are answers just when some service was asked for. */
  lemma AnswersWhenAsked(st: State, qs: seq<Query<Label>>, from: IpAddr)
    requires qs != []
    ensures Answering(st, qs, from) != [] <==> exists s :: s in st.services && AskedFor(ViewQueries(qs), s, from)
  {
    hide Answering, Announces, AskedFor, ViewQueries, ViewAnswers, Announcement;
    var xs := Answering(st, qs, from);
    AnsweringExact(st, qs, from);
    ViewAnswersAt(xs);
    if xs != [] {
      var v := ViewAnswers(xs)[0];
      assert v in ViewAnswers(xs);
      AnnouncesIs(st, qs, from, v);
    }
    if exists s :: s in st.services && AskedFor(ViewQueries(qs), s, from) {
      var s :| s in st.services && AskedFor(ViewQueries(qs), s, from);
      var v := SomeAnnouncement(s, qs[0].qclass);
      AnnouncesIs(st, qs, from, v);
      assert v in ViewAnswers(xs);
    }
  }

  lemma SomeAnnouncement(s: ServiceInfo<Label>, c: QClass) returns (v: Answer<Name>)
    ensures Announcement(v, s, c)
  {
    v := Answer(Segs(s.serviceType), PTR, IN, 4500, RecPTR(Segs(s.instanceName)));
  }

  lemma RequestHandled(st: State, req: Message<Label>, from: SocketAddr)
    requires Inv(st) && req.Request?
    ensures var qs, out := ViewQueries(req.queries), Servers.HandleRequest(st, req, from);
      if qs != [] && req.id != st.txidQuery && exists s :: s in st.services && AskedFor(qs, s, from.ip) then
        Replies(out, st, req.id, qs, from)
      else out == Wait(PollTimeout(st))
  {
    hide Answering, AskedFor, ViewQueries, ViewAnswers, Announcement, Inv, Facing, Announces, SameNetwork;
    ViewQueriesAt(req.queries);
    if req.queries != [] {
      AnswersWhenAsked(st, req.queries, from.ip);
      if req.id != st.txidQuery && Answering(st, req.queries, from.ip) != [] {
        AnsweringExact(st, req.queries, from.ip);
        forall v
          ensures Announces(st, req.queries, from.ip, v) <==>
                  exists s :: s in st.services && AskedFor(ViewQueries(req.queries), s, from.ip)
                              && Announcement(v, s, req.queries[0].qclass)
        {
          AnnouncesIs(st, req.queries, from.ip, v);
        }
        FacingFound(st, req.queries, from.ip);
        var i := FacingIs(st.localIps, from.ip);
        assert Faces(st, from.ip, i);
      }
    }
  }

  /**
   A packet that reads as a request: the server replies if and only if there is a question, the id is
   not that of its own last one, and some service in the sender's network was asked for; the reply
   has all that announces these services, and nothing else or twice.
   */
  lemma RequestExactly(st: State, data: seq<byte>, from: SocketAddr)
    requires Inv(st) && MessageAt(data, false).Some? && MessageAt(data, false).value.value.Request?
    ensures var req, out := MessageAt(data, false).value.value, OnPacket(st, data, from);
      if req.queries != [] && req.id != st.txidQuery
         && exists s :: s in st.services && AskedFor(req.queries, s, from.ip)
      then Replies(out, st, req.id, req.queries, from)
      else out == Wait(PollTimeout(st))
  {
    hide MessageAt, ParseMessage, Replies, Servers.HandleRequest, AskedFor, ViewAnswers, ViewQueries, Inv;
    Accepted(data);
    RequestHandled(st, ParseMessage(data, GROWING).value.value, from);
  }

  // ---------------------------------------------------------------- its own questions

  /** A packet that carries the id of the last question sent is no request to this server. */
  lemma SameIdIgnored(st: State, data: seq<byte>, from: SocketAddr)
    requires |data| >= 12 && Word(data, 0) == st.txidQuery && Octet(data, 2) < 128
    ensures OnPacket(st, data, from) == Wait(PollTimeout(st))
  {
    hide QuestionsAt, Word, Octet, ParseMessage, ViewQueries, ViewAnswers, Answering, Facing;
    Accepted(data);
  }

  lemma HeaderStarts(m: Message<Label>, limit: Option<nat>)
    ensures var b := Serialize(m, limit);
      |b| >= 12 && Word(b, 0) == m.id && (m.flags < 0x8000 ==> Octet(b, 2) < 128)
  {
    hide EmitQueries, EmitAnswers, Be16;
    var b := Serialize(m, limit);
    var id, flags := Be16(m.id), Be16(m.flags);
    assert b[..2] == id && b[2..4] == flags;
    assert At(b, 0, id) && At(b, 2, flags);
    WordIs(b, 0, m.id);
    WordIs(b, 2, m.flags);
    if m.flags < 0x8000 {
      TopOctet(b);
    }
  }

  lemma TopOctet(b: seq<byte>)
    requires |b| >= 4 && Word(b, 2) < 0x8000
    ensures Octet(b, 2) < 128
  {
  }

  /**
   A server ignores its own question: after a timeout that sent one, its octets are ignored from
   whatever address they come, and so is any other query with the same id.
   */
  lemma OwnQuestionIgnored(st: State, now: nat, limit: Option<nat>, data: seq<byte>, from: SocketAddr)
    requires InRange(st) && OnTimeout(st, now).1.Send? && OnTimeout(st, now).1.message.Request?
    ensures var (later, ask) := OnTimeout(st, now);
      && OnPacket(later, Serialize(ask.message, limit), from) == Wait(PollTimeout(later))
      && (|data| >= 12 && Word(data, 0) == ask.message.id && Octet(data, 2) < 128 ==>
            OnPacket(later, data, from) == Wait(PollTimeout(later)))
  {
    hide OnPacket, Serialize, AllAnswers, On, ServiceQueries, TargetQueries, Word, Octet;
    var (later, ask) := OnTimeout(st, now);
    HeaderStarts(ask.message, limit);
    SameIdIgnored(later, Serialize(ask.message, limit), from);
    if |data| >= 12 && Word(data, 0) == ask.message.id && Octet(data, 2) < 128 {
      SameIdIgnored(later, data, from);
    }
  }

  // ---------------------------------------------------------------- what it sends of its own

  /**
   An advertisement, exactly: an unsolicited response with no questions that announces, service by
   service, those of the interface and no others, by four answers each.
   */
  lemma AdvertisementExactly(ss: seq<ServiceInfo<Label>>, tt: seq<ServiceInfo<Label>>, s: ServiceInfo<Label>,
                             ip: LocalIp)
    ensures Advertisement(ss, ip) == Response(0, 0x8400, [], Advertisement(ss, ip).answers)
    ensures Advertisement([], ip).answers == []
    ensures Advertisement(ss + tt, ip).answers == Advertisement(ss, ip).answers + Advertisement(tt, ip).answers
    ensures Advertisement([s], ip).answers ==
            if s.ip != ip.addr || s.netmask != ip.mask then []
            else
              [Answer(s.serviceType, PTR, IN, 4500, RecPTR(s.instanceName)),
               Answer(s.instanceName, SRV, Multicast, 120, RecSRV(0, 0, s.port, s.hostname)),
               Answer(s.instanceName, TXT, Multicast, 120, RecTXT([0])),
               if s.ip.V4? then Answer(s.hostname, A, Multicast, 120, RecA(s.ip.v4))
               else Answer(s.hostname, AAAA, IN, 120, RecAAAA(s.ip.v6))]
  {
    hide AsAnswers;
    OnConcat(ss, tt, ip);
    AllConcat(On(ss, ip), On(tt, ip), Multicast);
    OneOnly(s, ip);
  }

  lemma {:induction false} OnConcat(a: seq<ServiceInfo<Label>>, b: seq<ServiceInfo<Label>>, ip: LocalIp)
    ensures On(a + b, ip) == On(a, ip) + On(b, ip)
    decreases |b|
  {
    if b == [] {
      assert a + b == a;
    } else {
      var n := |b| - 1;
      LastSplit(b);
      OnConcat(a, b[..n], ip);
      Assoc(a, b[..n], [b[n]]);
      LastOf(a + b[..n], b[n]);
    }
  }

  lemma OneOnly(s: ServiceInfo<Label>, ip: LocalIp)
    ensures Advertisement([s], ip).answers ==
            if s.ip != ip.addr || s.netmask != ip.mask then []
            else [PtrAnswer(s, Multicast), SrvAnswer(s, Multicast), TxtAnswer(s, Multicast), IpAnswer(s, Multicast)]
  {
    var on := On([s], ip);
    assert [s][..0] == [] && on == On([], ip) + if IpOf(s) == ip then [s] else [];
    if IpOf(s) == ip {
      assert on == [s];
      assert AllAnswers([s], Multicast) == AllAnswers<Label>([], Multicast) + AsAnswers(s, Multicast);
    } else {
      assert on == [];
    }
  }

  /** Its questions about its own services, and about the types it was told to ask for. */
  function OwnQuestions(st: State, ip: LocalIp): seq<Query<Label>>
  {
    Asking(st.(targets := []), ip).queries
  }

  function ToldQuestions(st: State, ip: LocalIp): seq<Query<Label>>
  {
    Asking(st.(services := []), ip).queries
  }

  /**
   A question, exactly: a standard query under the next transaction id, with one PTR question for
   each service of the interface, and then one for each target of it, in order.
   */
  lemma AskingExactly(st: State, s: ServiceInfo<Label>, t: Target, ip: LocalIp)
    ensures Asking(st, ip) == Request(st.nextTxid, 0x0100, OwnQuestions(st, ip) + ToldQuestions(st, ip))
    ensures OwnQuestions(st.(services := []), ip) == [] && ToldQuestions(st.(targets := []), ip) == []
    ensures OwnQuestions(st.(services := st.services + [s]), ip) ==
            OwnQuestions(st, ip) +
            if s.ip == ip.addr && s.netmask == ip.mask then [Query(s.serviceType, PTR, IN)] else []
    ensures ToldQuestions(st.(targets := st.targets + [t]), ip) ==
            ToldQuestions(st, ip) + if t.localIp == ip then [Query(t.serviceType, PTR, IN)] else []
  {
    NoneToAsk(ip);
    var own, told := ServiceQueries(On(st.services, ip)), TargetQueries(st.targets, ip);
    assert own + [] == own && [] + told == told;
    LastOf(st.services, s);
    LastOf(st.targets, t);
    LastOf(On(st.services, ip), s);
    var more := ServiceQueries(On(st.services + [s], ip));
    assert On(st.services, ip) + [] == On(st.services, ip);
    assert more + [] == more;
    var asked := TargetQueries(st.targets + [t], ip);
    assert [] + asked == asked;
  }

  lemma NoneToAsk(ip: LocalIp)
    ensures On<Label>([], ip) == [] && ServiceQueries([]) == [] && TargetQueries([], ip) == []
  {
  }
}

/** A server and its own packets: what it advertises never looks like a discovery to it. */
module Discovery {
  import opened Bytes
  import opened Names
  import opened Writers
  import opened LabelParser
  import opened LabelWriter
  import opened Messages
  import opened MessageTrip
  import opened Readings
  import opened Received
  import opened Services
  import opened JoinTheory
  import opened Servers
  import opened ServerInvariant
  import opened Deduplication

  // ---------------------------------------------------------------- never itself

  /** A service found in the announcements of services that share one address is one of them. */
  lemma FoundIsOwn(xs: seq<Answer<Name>>, own: seq<ServiceInfo<Name>>, c: QClass, ip: IpAddr, s: ServiceInfo<Name>)
    returns (t: ServiceInfo<Name>)
    requires Announce(xs, own, c) && (forall o :: o in own ==> o.ip == ip)
    requires s in own
    ensures t in own && t.instanceName == s.instanceName
    ensures var r := Resolve(Bare(s), xs); r.instanceName == t.instanceName && r.ip == t.ip && r.port == t.port
  {
    hide LastSrv, LastAddr, Announce;
    t := SrvFrom(xs, own, c, s);
    var u := AddrFrom(xs, own, c, t);
  }

  lemma {:induction false} ResolvedFrom(stubs: seq<ServiceInfo<Name>>, xs: seq<Answer<Name>>, r: ServiceInfo<Name>)
    requires r in Resolved(Bares(stubs), xs)
    ensures exists s :: s in stubs && r == Resolve(Bare(s), xs)
  {
    hide LastSrv, LastAddr, Resolve;
    if stubs != [] {
      var n := |stubs| - 1;
      LastSplit(stubs);
      LastOf(Bares(stubs[..n]), Bare(stubs[n]));
      if r in Resolved(Bares(stubs[..n]), xs) {
        ResolvedFrom(stubs[..n], xs, r);
      }
    }
  }

  lemma {:induction false} NoneMatches(ss: seq<ServiceInfo<Name>>, st: State)
    ensures FirstMatching(ss, st) == None <==> forall s :: s in ss ==> !Matching(s, st)
  {
    hide Matching;
    if ss != [] {
      assert ss == [ss[0]] + ss[1..];
      NoneMatches(ss[1..], st);
    }
  }

  lemma OwnView(st: State, ip: LocalIp, t: ServiceInfo<Name>)
    requires t in ViewServices(On(st.services, ip))
    ensures t.ip == ip.addr
    ensures exists i :: 0 <= i < |st.services| && ViewService(st.services[i]) == t
  {
    hide ViewService;
    var on := On(st.services, ip);
    var i :| 0 <= i < |on| && ViewServices(on)[i] == t;
    OnIs(st.services, ip, on[i]);
    var j :| 0 <= j < |st.services| && st.services[j] == on[i];
    assert ViewService(st.services[j]) == t;
    ViewKeeps(on[i]);
  }

  lemma ViewKeeps(s: ServiceInfo<Label>)
    ensures ViewService(s).ip == s.ip && ViewService(s).netmask == s.netmask && ViewService(s).port == s.port
    ensures ViewService(s).instanceName == Segs(s.instanceName) && ViewService(s).serviceType == Segs(s.serviceType)
    ensures ViewService(s).hostname == Segs(s.hostname)
  {
  }

  lemma JoinedIsSelf(st: State, ip: LocalIp, r: ServiceInfo<Name>)
    requires r in Join(AllAnswers(ViewServices(On(st.services, ip)), Multicast))
    ensures IsSelf(r, st.services)
  {
    hide AllAnswers, On, Resolved, Stubs, Resolve, ViewService, IsSelf, Announce, ViewServices;
    var own := ViewServices(On(st.services, ip));
    var xs := AllAnswers(own, Multicast);
    AllAnnounce(own, Multicast);
    AllStubs(own, Multicast);
    ResolvedFrom(own, xs, r);
    var s :| s in own && r == Resolve(Bare(s), xs);
    forall o | o in own
      ensures o.ip == ip.addr
    {
      OwnView(st, ip, o);
    }
    var t := FoundIsOwn(xs, own, Multicast, ip.addr, s);
    OwnView(st, ip, t);
    var i :| 0 <= i < |st.services| && ViewService(st.services[i]) == t;
    ViewKeeps(st.services[i]);
    SelfIs(r, st.services, i);
  }

  /**
   A server never discovers itself: whatever services it has, with repeated instance names or shared
   hosts, nothing is left of the answers it advertises on an interface once they are joined and its
   own services taken out.
   */
  lemma NeverItself(st: State, ip: LocalIp)
    ensures HandleResponse(st, ViewAnswers(Advertisement(st.services, ip).answers)) == Wait(PollTimeout(st))
  {
    hide ViewAnswers, AllAnswers, On, Join, ViewServices, IsSelf, FirstMatching;
    ViewAll(On(st.services, ip), Multicast);
    var xs := AllAnswers(ViewServices(On(st.services, ip)), Multicast);
    forall r | r in Join(xs)
      ensures IsSelf(r, st.services)
    {
      JoinedIsSelf(st, ip, r);
    }
    NoneMatches(Join(xs), st);
  }

  lemma SelfIs(r: ServiceInfo<Name>, ss: seq<ServiceInfo<Label>>, i: nat)
    requires i < |ss| && r.instanceName == Segs(ss[i].instanceName) && r.ip == ss[i].ip && r.port == ss[i].port
    ensures IsSelf(r, ss)
  {
  }

  // ---------------------------------------------------------------- its own octets

  predicate ProperService(s: ServiceInfo<Label>)
  {
    Proper(s.serviceType) && Proper(s.instanceName) && Proper(s.hostname)
  }

  lemma InIsNormal()
    ensures ClassOf(ClassCode(IN)) == IN && ClassOf(ClassCode(Multicast)) == Multicast
  {
  }

  lemma FourProper(s: ServiceInfo<Label>, c: QClass)
    requires ProperService(s) && ClassOf(ClassCode(c)) == c
    ensures forall x :: x in AsAnswers(s, c) ==> ProperAnswer(x) && GoodAnswerFields(x)
  {
    hide RunItems, StrItems, WireSegs, ItemsSegs, ClassOf, ClassCode;
    assert Utf8([0]) by {
      assert CharWidth([0]) == 1;
      assert ([0 as byte])[1..] == [];
    }
    InIsNormal();
  }

  lemma {:induction false} AllProper(ss: seq<ServiceInfo<Label>>, c: QClass)
    requires (forall s :: s in ss ==> ProperService(s)) && ClassOf(ClassCode(c)) == c
    ensures forall x :: x in AllAnswers(ss, c) ==> ProperAnswer(x) && GoodAnswerFields(x)
  {
    hide AsAnswers, ProperService, ProperAnswer, GoodAnswerFields, ClassOf, ClassCode;
    if ss != [] {
      var n := |ss| - 1;
      LastSplit(ss);
      AllProper(ss[..n], c);
      FourProper(ss[n], c);
    }
  }

  lemma {:induction false} FewAnswers(xs: seq<Answer<Label>>, p: nat, table: Table, limit: Option<nat>)
    ensures |xs| <= |EmitAnswers(xs, p, table, limit).bytes|
  {
    hide EmitLabel, EmitRecord;
    if xs != [] {
      var e := EmitAnswer(xs[0], p, table, limit);
      FewAnswers(xs[1..], p + |e.bytes|, e.table, limit);
    }
  }

  /** What proper services advertise has proper fields, within pointer reach. */
  lemma AdvertisementProper(st: State, ip: LocalIp, limit: Option<nat>)
    requires forall s :: s in st.services ==> ProperService(s)
    requires |Serialize(Advertisement(st.services, ip), limit)| <= REACH
    ensures GoodFields(Advertisement(st.services, ip)) && ProperNames(Advertisement(st.services, ip))
  {
    hide On, AllAnswers, ProperService, ProperAnswer, GoodAnswerFields, ClassOf, ClassCode, EmitAnswers;
    var on := On(st.services, ip);
    forall s | s in on
      ensures ProperService(s)
    {
      OnIs(st.services, ip, s);
    }
    InIsNormal();
    AllProper(on, Multicast);
    FewAnswers(AllAnswers(on, Multicast), 12, [], limit);
  }

  /**
   Its own advertisement heard again, exactly, whatever the names do to each other: the server finds
   what the octets read as, so it ignores them if and only if they are rejected or nothing joined
   from that reading matches.
   */
  lemma OwnPacketExactly(st: State, ip: LocalIp, limit: Option<nat>, from: SocketAddr)
    requires forall s :: s in st.services ==> ProperService(s)
    requires |Serialize(Advertisement(st.services, ip), limit)| <= REACH
    ensures var m := Advertisement(st.services, ip);
      var out, read := OnPacket(st, Serialize(m, limit), from), ReadMessage(m, limit);
      && (out == if read.None? then Wait(PollTimeout(st)) else HandleResponse(st, read.value.answers))
      && (out == Wait(PollTimeout(st)) <==>
          (read.None? || forall s :: s in Join(read.value.answers) ==> !Matching(s, st)))
  {
    hide Advertisement, ParseMessage, ReadMessage, ViewAnswers, ViewQueries, GoodFields, ProperNames, ProperService,
      Join, Matching, FirstMatching, Serialize;
    var m := Advertisement(st.services, ip);
    var b := Serialize(m, limit);
    Itself(b);
    IsResponse(st, ip);
    AdvertisementProper(st, ip, limit);
    MessageReads(b, m, limit);
    ReadsResponse(m, limit);
    if ReadMessage(m, limit).Some? {
      NoneMatches(Join(ReadMessage(m, limit).value.answers), st);
    }
  }

  lemma ReadsResponse(m: Message<Label>, limit: Option<nat>)
    ensures m.Response? && ReadMessage(m, limit).Some? ==> ReadMessage(m, limit).value.Response?
  {
    hide ReadQueries, ReadAnswers, EmitQueries;
  }

  /** When its names survive the trip, its own advertisement gives no discovery. */
  lemma OwnPacketIgnored(st: State, ip: LocalIp, limit: Option<nat>, from: SocketAddr)
    requires GoodFields(Advertisement(st.services, ip)) && GoodNames(Advertisement(st.services, ip), limit)
    ensures OnPacket(st, Serialize(Advertisement(st.services, ip), limit), from) == Wait(PollTimeout(st))
  {
    hide Advertisement, ParseMessage, ViewAnswers, ViewQueries, GoodFields, GoodNames, HandleResponse;
    var m := Advertisement(st.services, ip);
    var b := Serialize(m, limit);
    Itself(b);
    IsResponse(st, ip);
    MessageTrip.MessageTrip(b, m, limit);
    NeverItself(st, ip);
  }

  lemma IsResponse(st: State, ip: LocalIp)
    ensures Advertisement(st.services, ip).Response?
  {
  }
}

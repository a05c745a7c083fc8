/** The server as an object that is updated in place, proved against the step functions. */
module ServerObject {
  import opened Bytes
  import opened Names
  import opened LabelParser
  import opened Messages
  import opened MessageIO
  import opened Received
  import opened Services
  import opened JoinTheory
  import opened Servers
  import opened ServerInvariant
  import opened Deduplication

  /** A packet of `n` octets in the buffer, the next timeout, or a discovery. */
  datatype Output = Packet(n: nat, cast: Cast) | Timeout(until: nat) | Remote(service: ServiceInfo<Label>)

  /** The output stands for `out`; a message that fits is in the buffer. */
  ghost predicate Delivers(o: Output, out: Out, buffer: seq<byte>, limit: Option<nat>)
  {
    match out
    case Send(message, cast) =>
      && o.Packet? && o.cast == cast && o.n <= |buffer|
      && (|Serialize(message, limit)| <= |buffer| ==> buffer[..o.n] == Serialize(message, limit))
    case Wait(until) => o == Timeout(until)
    case Found(service) => o.Remote? && ViewService(o.service) == service
  }

  lemma BuiltIsWhole(lab: Label)
    requires Built(lab)
    ensures WholeParts(lab.items)
  {
  }

  lemma {:induction false} AllWhole(ss: seq<ServiceInfo<Label>>, c: QClass)
    requires forall s :: s in ss ==> BuiltService(s)
    ensures forall x :: x in AllAnswers(ss, c) ==> WholeAnswer(x)
  {
    hide WholeParts, Built, AsAnswers;
    if ss != [] {
      var n := |ss| - 1;
      LastSplit(ss);
      AllWhole(ss[..n], c);
      FourWhole(ss[n], c);
    }
  }

  lemma FourWhole(s: ServiceInfo<Label>, c: QClass)
    requires BuiltService(s)
    ensures forall x :: x in AsAnswers(s, c) ==> WholeAnswer(x)
  {
    hide WholeParts, Built;
    BuiltIsWhole(s.serviceType);
    BuiltIsWhole(s.instanceName);
    BuiltIsWhole(s.hostname);
  }

  lemma AllSnocServices(ss: seq<ServiceInfo<Label>>, s: ServiceInfo<Label>, c: QClass)
    ensures AllAnswers(ss + [s], c) == AllAnswers(ss, c) + AsAnswers(s, c)
  {
    LastOf(ss, s);
  }

  lemma OnSnoc(ss: seq<ServiceInfo<Label>>, i: nat, ip: LocalIp)
    requires i < |ss|
    ensures On(ss[..i + 1], ip) == On(ss[..i], ip) + if IpOf(ss[i]) == ip then [ss[i]] else []
  {
    Snoc(ss, i);
  }

  class Server {
    const limit: Option<nat>
    const services: seq<ServiceInfo<Label>>
    var lastNow: nat
    var targets: seq<Target>
    var localIps: seq<LocalIp>
    var nextAdvertise: nat
    var advertiseIdx: nat
    var nextQuery: nat
    var queryIdx: nat
    var txidQuery: u16
    var nextTxid: u16

    ghost function Now(): State
      reads this
    {
      State(lastNow, services, targets, localIps, nextAdvertise, advertiseIdx, nextQuery, queryIdx, txidQuery, nextTxid)
    }

    ghost predicate Valid()
      reads this
    {
      Inv(Now())
    }

    constructor (ss: seq<ServiceInfo<Label>>, limit: Option<nat>)
      requires forall s :: s in ss ==> BuiltService(s)
      ensures Valid() && Now() == Start(ss) && this.limit == limit
    {
      this.limit := limit;
      services := ss;
      lastNow, targets := 0, [];
      nextAdvertise, advertiseIdx := if ss != [] then 3000 else FOREVER, 0;
      nextQuery, queryIdx := if ss != [] then 5000 else FOREVER, 0;
      txidQuery, nextTxid := 0, 1;
      localIps := [];
      new;
      for i := 0 to |ss|
        invariant localIps == ServiceIps(ss[..i])
        invariant services == ss && lastNow == 0 && targets == [] && txidQuery == 0 && nextTxid == 1
        invariant nextAdvertise == (if ss != [] then 3000 else FOREVER) && advertiseIdx == 0
        invariant nextQuery == (if ss != [] then 5000 else FOREVER) && queryIdx == 0
        invariant this.limit == limit
      {
        Snoc(ss, i);
        var loc := LocalIp(ss[i].ip, ss[i].netmask);
        if loc !in localIps {
          localIps := localIps + [loc];
        }
      }
      assert ss[..|ss|] == ss;
      StartInv(ss);
    }

    /** `Server::query`: asks for a type without advertising; the next timeout asks at once. */
    method Query(serviceType: seq<byte>, ip: IpAddr, netmask: IpAddr)
      requires Valid() && LabelText(serviceType)
      modifies this
      ensures Valid() && Now() == Queried(old(Now()), serviceType, LocalIp(ip, netmask))
    {
      hide Inv, ItemsSegs, SplitDots;
      var localIp := LocalIp(ip, netmask);
      QueriedInv(Now(), serviceType, localIp);
      var known := false;
      for i := 0 to |targets|
        modifies {}
        invariant known <==> Known(targets[..i], serviceType, localIp)
      {
        KnownSnoc(targets, i, serviceType, localIp);
        known := known || (targets[i].localIp == localIp && Segs(targets[i].serviceType) == SplitDots(serviceType));
      }
      assert targets[..|targets|] == targets;
      if !known {
        targets := targets + [Target(Label([Str(serviceType)]), localIp)];
      }
      if localIp !in localIps {
        localIps := localIps + [localIp];
      }
      nextQuery := lastNow;
    }

    function Poll(): nat
      reads this
    {
      if services == [] then nextQuery
      else if nextAdvertise <= nextQuery then nextAdvertise else nextQuery
    }

    method DoAdvertise(buffer: array<byte>, local: LocalIp) returns (o: Output)
      requires Valid() && buffer.Length < USIZE
      modifies buffer
      ensures Delivers(o, Send(Advertisement(services, local), Multi(local.addr)), buffer[..], limit)
    {
      hide AllAnswers, AsAnswers, WholeAnswer;
      var answers: seq<Answer<Label>> := [];
      NothingToSay(Multicast);
      for i := 0 to |services|
        invariant answers == AllAnswers(On(services[..i], local), Multicast)
      {
        OnSnoc(services, i, local);
        var service := services[i];
        if service.ip == local.addr && service.netmask == local.mask {
          AllSnocServices(On(services[..i], local), service, Multicast);
          answers := answers + AsAnswers(service, Multicast);
        } else {
          assert On(services[..i], local) + [] == On(services[..i], local);
        }
      }
      assert services[..|services|] == services;
      OnWhole(services, local);
      var n, _ := SerializeMessage(Response(0, STANDARD_RESPONSE, [], answers), buffer, limit);
      o := Output.Packet(n, Multi(local.addr));
    }

    /** Takes a transaction id, remembers it, and asks for every type of this interface. */
    method DoQuery(buffer: array<byte>, local: LocalIp) returns (o: Output)
      requires Valid() && buffer.Length < USIZE
      modifies buffer, this`nextTxid, this`txidQuery
      ensures Delivers(o, old(Send(Asking(Now(), local), Multi(local.addr))), buffer[..], limit)
      ensures txidQuery == old(nextTxid) && nextTxid == (old(nextTxid) + 1) % 0x1_0000
    {
      var id := nextTxid;
      nextTxid := (nextTxid + 1) % 0x1_0000;
      txidQuery := id;
      var queries := Collect(local);
      QueriesWhole(services, targets, local);
      var n, _ := SerializeMessage(Request(id, STANDARD_REQUEST, queries), buffer, limit);
      o := Output.Packet(n, Multi(local.addr));
    }

    /** The two loops of `do_query`: services of the interface, then targets of it. */
    method Collect(local: LocalIp) returns (queries: seq<Query<Label>>)
      ensures queries == ServiceQueries(On(services, local)) + TargetQueries(targets, local)
    {
      queries := [];
      for i := 0 to |services|
        invariant queries == ServiceQueries(On(services[..i], local))
      {
        OnSnoc(services, i, local);
        var service := services[i];
        if service.ip == local.addr && service.netmask == local.mask {
          LastOf(On(services[..i], local), service);
          queries := queries + [PtrQuery(service.serviceType)];
        } else {
          assert On(services[..i], local) + [] == On(services[..i], local);
        }
      }
      assert services[..|services|] == services;
      ghost var own := queries;
      for i := 0 to |targets|
        invariant queries == own + TargetQueries(targets[..i], local)
      {
        Snoc(targets, i);
        if targets[i].localIp == local {
          Assoc(own, TargetQueries(targets[..i], local), [PtrQuery(targets[i].serviceType)]);
          queries := queries + [PtrQuery(targets[i].serviceType)];
        } else {
          assert TargetQueries(targets[..i], local) + [] == TargetQueries(targets[..i], local);
        }
      }
      assert targets[..|targets|] == targets;
    }

    /** `Server::handle_timeout`. */
    method HandleTimeout(now: nat, buffer: array<byte>) returns (o: Output)
      requires Valid() && buffer.Length < USIZE
      modifies this, buffer
      ensures Valid() && Now() == OnTimeout(old(Now()), now).0
      ensures Delivers(o, OnTimeout(old(Now()), now).1, buffer[..], limit)
    {
      hide Delivers, Asking, Advertisement, ExactIps, DistinctTargets, Idle, BuiltState;
      TimeoutInv(Now(), now);
      TimeoutBefore(Now(), now);
      LaterInv(Now(), now);
      lastNow := now;
      if services != [] && now >= nextAdvertise {
        var from := localIps[advertiseIdx];
        o := DoAdvertise(buffer, from);
        advertiseIdx := advertiseIdx + 1;
        if advertiseIdx == |localIps| {
          advertiseIdx := 0;
          nextAdvertise := After(now, ADVERTISE_INTERVAL);
        }
      } else if localIps != [] && now >= nextQuery {
        var from := localIps[queryIdx];
        o := DoQuery(buffer, from);
        queryIdx := queryIdx + 1;
        if queryIdx == |localIps| {
          queryIdx := 0;
          nextQuery := After(now, QUERY_INTERVAL);
        }
      } else {
        o := Timeout(Poll());
        WaitDelivers(Poll(), buffer[..], limit);
      }
    }

    /** The triple loop of `handle_request`: every answer that is not in the list yet is added to it. */
    method CollectAnswers(queries: seq<Query<Label>>, from: IpAddr) returns (answers: seq<Answer<Label>>)
      requires queries != []
      ensures answers == Answering(Now(), queries, from)
    {
      hide AsAnswers, HasAnswer, Asks;
      var qclass := queries[0].qclass;
      answers := [];
      NothingToSay(qclass);
      for i := 0 to |queries|
        invariant answers == Dedup(AllAnswers(AllAsked(queries[..i], services, from), qclass))
      {
        ghost var before := AllAsked(queries[..i], services, from);
        assert before + [] == before;
        for j := 0 to |services|
          invariant answers == Dedup(AllAnswers(before + Asked(queries[i], services[..j], from), qclass))
        {
          Snoc(services, j);
          ghost var sofar := before + Asked(queries[i], services[..j], from);
          var service := services[j];
          if Asks(queries[i], service, from) {
            answers := AddFour(answers, service, qclass, AllAnswers(sofar, qclass));
            AllSnocServices(sofar, service, qclass);
            Assoc(before, Asked(queries[i], services[..j], from), [service]);
          } else {
            assert Asked(queries[i], services[..j], from) + [] == Asked(queries[i], services[..j], from);
          }
        }
        assert services[..|services|] == services;
        Snoc(queries, i);
      }
      assert queries[..|queries|] == queries;
    }

    /** `find`: the first interface in the sender's network. */
    method FindFacing(from: IpAddr) returns (r: Option<LocalIp>)
      ensures r == Facing(localIps, from)
    {
      hide SameNetwork;
      for i := 0 to |localIps|
        invariant Facing(localIps, from) == Facing(localIps[i..], from)
      {
        if SameNetwork(localIps[i].addr, localIps[i].mask, from) {
          return Some(localIps[i]);
        }
      }
      return None;
    }

    /** `Server::handle_request`. */
    method HandleRequest(request: Message<Label>, from: SocketAddr, buffer: array<byte>) returns (o: Output)
      requires Valid() && buffer.Length < USIZE && request.Request? && WholeMessage(request)
      modifies buffer
      ensures Delivers(o, Servers.HandleRequest(Now(), request, from), buffer[..], limit)
    {
      hide Inv, Answering, Facing, WholeAnswer, WholeParts, Delivers, Serialize;
      WaitDelivers(Poll(), buffer[..], limit);
      if request.queries == [] || request.id == txidQuery {
        return Timeout(Poll());
      }
      var answers := CollectAnswers(request.queries, from.ip);
      if answers == [] {
        return Timeout(Poll());
      }
      AnsweringWhole(Now(), request.queries, from.ip);
      var response := Response(request.id, STANDARD_RESPONSE, request.queries, answers);
      var n, _ := SerializeMessage(response, buffer, limit);
      var facing := FindFacing(from.ip);
      FacingFound(Now(), request.queries, from.ip);
      var sender := facing.value.addr;
      o := Output.Packet(n, if request.queries[0].qclass == IN then Uni(sender, from) else Multi(sender));
      SendDelivers(o, response, buffer[..], limit);
    }

    /** `is_matching_service`. */
    method IsMatching(s: ServiceInfo<Label>) returns (r: bool)
      ensures r <==> Matching(ViewService(s), Now())
    {
      hide ItemsSegs;
      var handled, self := false, false;
      ghost var v := ViewService(s);
      for i := 0 to |services|
        invariant handled <==> exists k :: 0 <= k < i && v.serviceType == Segs(services[k].serviceType)
        invariant self <==> exists k :: 0 <= k < i && v.instanceName == Segs(services[k].instanceName)
                                        && v.ip == services[k].ip && v.port == services[k].port
      {
        var t := services[i];
        handled := handled || Segs(s.serviceType) == Segs(t.serviceType);
        self := self || (Segs(s.instanceName) == Segs(t.instanceName) && s.ip == t.ip && s.port == t.port);
      }
      ghost var own := handled;
      for i := 0 to |targets|
        invariant handled <==> own || exists k :: 0 <= k < i && v.serviceType == Segs(targets[k].serviceType)
      {
        handled := handled || Segs(s.serviceType) == Segs(targets[i].serviceType);
      }
      r := handled && !self;
    }

    /** `Server::handle_response`: join, keep what matches, report the first. */
    method HandleResponse(answers: seq<Answer<Label>>) returns (o: Output)
      requires forall x :: x in answers ==> WholeAnswer(x)
      ensures Delivers(o, Servers.HandleResponse(Now(), ViewAnswers(answers)), [], limit)
    {
      hide Join, ViewAnswers, Matching, WholeAnswer, ViewService;
      var found := FromAnswers(answers);
      ghost var all := Join(ViewAnswers(answers));
      var services_: seq<ServiceInfo<Label>> := [];
      for i := 0 to |found|
        invariant FirstMatching(all, Now()) ==
                  if services_ == [] then FirstMatching(all[i..], Now()) else Some(ViewService(services_[0]))
      {
        assert all[i..][0] == ViewService(found[i]) && all[i..][1..] == all[i + 1..];
        var keep := IsMatching(found[i]);
        if keep {
          services_ := services_ + [found[i]];
        }
      }
      if services_ == [] {
        o := Timeout(Poll());
      } else {
        o := Remote(services_[0]);
      }
    }

    /** `Server::handle_packet`: an octet string that does not parse is ignored. */
    method HandlePacket(data: seq<byte>, from: SocketAddr, buffer: array<byte>) returns (o: Output)
      requires Valid() && buffer.Length < USIZE
      modifies buffer
      ensures Delivers(o, OnPacket(Now(), data, from), buffer[..], limit)
    {
      hide ParseMessage, Servers.HandleRequest, FirstMatching, Join, Inv, ViewAnswers, WholeAnswer, WholeParts,
        GoodFields, RunItems;
      var r := Receive(data, GROWING);
      match r {
        case None =>
          o := Timeout(Poll());
        case Some(p) =>
          MessageReceived(data, GROWING);
          ReceivedWhole(p.value);
          if p.value.Request? {
            o := HandleRequest(p.value, from, buffer);
          } else {
            o := HandleResponse(p.value.answers);
            QuietDelivers(o, Servers.HandleResponse(Now(), ViewAnswers(p.value.answers)), buffer[..], limit);
          }
      }
    }
  }

  lemma SendDelivers(o: Output, m: Message<Label>, buffer: seq<byte>, limit: Option<nat>)
    requires o.Packet? && o.n <= |buffer|
    requires (|Serialize(m, limit)| <= |buffer| ==> buffer[..o.n] == Serialize(m, limit))
    ensures Delivers(o, Send(m, o.cast), buffer, limit)
  {
    hide Serialize;
  }

  /** An output without a packet does not depend on the buffer. */
  lemma QuietDelivers(o: Output, out: Out, buffer: seq<byte>, limit: Option<nat>)
    requires Delivers(o, out, [], limit) && !out.Send?
    ensures Delivers(o, out, buffer, limit)
  {
  }

  lemma AnsweringWhole(st: State, qs: seq<Query<Label>>, from: IpAddr)
    requires Inv(st) && qs != []
    ensures forall x :: x in Answering(st, qs, from) ==> WholeAnswer(x)
  {
    hide BuiltService, AllAsked, AllAnswers, WholeAnswer, Asks, Dedup;
    var asked := AllAsked(qs, st.services, from);
    forall s | s in asked
      ensures BuiltService(s)
    {
      AllAskedReach(qs, st.services, from, s);
    }
    AllWhole(asked, qs[0].qclass);
    DedupIsFirsts(AllAnswers(asked, qs[0].qclass));
  }

  lemma LaterInv(st: State, now: nat)
    requires Inv(st)
    ensures Inv(st.(lastNow := now))
  {
    hide BuiltService, DistinctTargets;
    assert forall ip :: UsedIp(st.(lastNow := now), ip) <==> UsedIp(st, ip);
  }

  /** The inner loop: the four answers of a service, each unless an equal one is there. */
  method AddFour(answers: seq<Answer<Label>>, service: ServiceInfo<Label>, qclass: QClass,
                 ghost all: seq<Answer<Label>>)
    returns (r: seq<Answer<Label>>)
    requires answers == Dedup(all)
    ensures r == Dedup(all + AsAnswers(service, qclass))
  {
    hide HasAnswer;
    r := answers;
    var four := AsAnswers(service, qclass);
    assert all + four[..0] == all;
    for k := 0 to 4
      invariant r == Dedup(all + four[..k])
    {
      Assoc(all, four[..k], [four[k]]);
      Snoc(four, k);
      LastOf(all + four[..k], four[k]);
      if !HasAnswer(r, four[k]) {
        r := r + [four[k]];
      }
    }
    assert four[..4] == four;
  }

  lemma WaitDelivers(until: nat, buffer: seq<byte>, limit: Option<nat>)
    ensures Delivers(Timeout(until), Wait(until), buffer, limit)
  {
  }

  /** Neither the clock nor the id counters change what is asked. */
  lemma TimeoutBefore(st: State, now: nat)
    ensures forall ip :: Asking(st.(lastNow := now), ip) == Asking(st, ip)
  {
  }

  lemma QueriesWhole(ss: seq<ServiceInfo<Label>>, ts: seq<Target>, ip: LocalIp)
    requires forall s :: s in ss ==> BuiltService(s)
    requires forall t :: t in ts ==> Built(t.serviceType)
    ensures forall q :: q in ServiceQueries(On(ss, ip)) + TargetQueries(ts, ip) ==> WholeParts(q.name.items)
  {
    hide On, Built, WholeParts;
    forall s | s in On(ss, ip)
      ensures Built(s.serviceType)
    {
      OnIs(ss, ip, s);
    }
    ServiceQueriesWhole(On(ss, ip));
    TargetQueriesWhole(ts, ip);
  }

  lemma {:induction false} ServiceQueriesWhole(ss: seq<ServiceInfo<Label>>)
    requires forall s :: s in ss ==> Built(s.serviceType)
    ensures forall q :: q in ServiceQueries(ss) ==> WholeParts(q.name.items)
  {
    hide Built, WholeParts;
    if ss != [] {
      LastSplit(ss);
      ServiceQueriesWhole(ss[..|ss| - 1]);
      BuiltIsWhole(ss[|ss| - 1].serviceType);
    }
  }

  lemma {:induction false} TargetQueriesWhole(ts: seq<Target>, ip: LocalIp)
    requires forall t :: t in ts ==> Built(t.serviceType)
    ensures forall q :: q in TargetQueries(ts, ip) ==> WholeParts(q.name.items)
  {
    hide Built, WholeParts;
    if ts != [] {
      LastSplit(ts);
      TargetQueriesWhole(ts[..|ts| - 1], ip);
      BuiltIsWhole(ts[|ts| - 1].serviceType);
    }
  }

  lemma OnWhole(ss: seq<ServiceInfo<Label>>, ip: LocalIp)
    requires forall s :: s in ss ==> BuiltService(s)
    ensures forall x :: x in AllAnswers(On(ss, ip), Multicast) ==> WholeAnswer(x)
  {
    hide AllAnswers, BuiltService, WholeAnswer;
    forall s | s in On(ss, ip)
      ensures BuiltService(s)
    {
      OnIs(ss, ip, s);
    }
    AllWhole(On(ss, ip), Multicast);
  }

  lemma KnownSnoc(ts: seq<Target>, i: nat, serviceType: seq<byte>, ip: LocalIp)
    requires i < |ts|
    ensures Known(ts[..i + 1], serviceType, ip) <==>
            Known(ts[..i], serviceType, ip) ||
            (ts[i].localIp == ip && Segs(ts[i].serviceType) == SplitDots(serviceType))
  {
    hide ItemsSegs, SplitDots;
    var a, b := ts[..i], ts[..i + 1];
    if Known(a, serviceType, ip) {
      var k :| 0 <= k < |a| && a[k].localIp == ip && Segs(a[k].serviceType) == SplitDots(serviceType);
      assert b[k] == a[k];
    }
    if Known(b, serviceType, ip) {
      var k :| 0 <= k < |b| && b[k].localIp == ip && Segs(b[k].serviceType) == SplitDots(serviceType);
      assert k < i ==> a[k] == b[k];
    }
    if ts[i].localIp == ip && Segs(ts[i].serviceType) == SplitDots(serviceType) {
      assert b[i] == ts[i];
    }
  }
}

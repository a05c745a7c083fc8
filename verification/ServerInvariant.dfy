/** What holds of a server after any sequence of inputs. */
module ServerInvariant {
  import opened Bytes
  import opened Names
  import opened Messages
  import opened Services
  import opened Servers

  ghost predicate NoRepeats<T>(xs: seq<T>)
  {
    forall i, j :: 0 <= i < j < |xs| ==> xs[i] != xs[j]
  }

  ghost predicate UsedIp(st: State, ip: LocalIp)
  {
    (exists s :: s in st.services && IpOf(s) == ip) || (exists t :: t in st.targets && t.localIp == ip)
  }

  /** The interfaces are exactly those of the services and the targets. */
  ghost predicate ExactIps(st: State)
  {
    forall ip :: ip in st.localIps <==> UsedIp(st, ip)
  }

  /** Targets with a type that is not empty do not repeat. */
  ghost predicate DistinctTargets(targets: seq<Target>)
  {
    forall i, j :: 0 <= i < j < |targets| ==>
      targets[i].localIp != targets[j].localIp
      || Segs(targets[i].serviceType) != Segs(targets[j].serviceType)
      || Segs(targets[i].serviceType) == []
  }

  ghost predicate Idle(st: State)
  {
    && (st.services == [] ==> st.nextAdvertise == FOREVER && st.advertiseIdx == 0)
    && (st.localIps == [] ==> st.nextQuery == FOREVER)
  }

  ghost predicate Inv(st: State)
  {
    && InRange(st) && NoRepeats(st.localIps) && ExactIps(st) && DistinctTargets(st.targets) && Idle(st)
    && BuiltState(st)
  }

  lemma LastSplit<T>(xs: seq<T>)
    requires xs != []
    ensures xs == xs[..|xs| - 1] + [xs[|xs| - 1]]
  {
  }

  lemma {:induction false} OnIs(ss: seq<ServiceInfo<Label>>, ip: LocalIp, s: ServiceInfo<Label>)
    ensures s in On(ss, ip) <==> s in ss && IpOf(s) == ip
  {
    if ss != [] {
      LastSplit(ss);
      OnIs(ss[..|ss| - 1], ip, s);
    }
  }

  lemma {:induction false} ServiceIpsAre(ss: seq<ServiceInfo<Label>>)
    ensures NoRepeats(ServiceIps(ss)) && (ss == [] <==> ServiceIps(ss) == [])
    ensures forall ip :: ip in ServiceIps(ss) <==> exists s :: s in ss && IpOf(s) == ip
  {
    if ss != [] {
      var n := |ss| - 1;
      LastSplit(ss);
      ServiceIpsAre(ss[..n]);
      forall ip
        ensures ip in ServiceIps(ss) <==> exists s :: s in ss && IpOf(s) == ip
      {
        if ip == IpOf(ss[n]) {
          assert ss[n] in ss;
        } else if exists s :: s in ss && IpOf(s) == ip {
          var s :| s in ss && IpOf(s) == ip;
          assert s in ss[..n];
        }
      }
    }
  }

  lemma StartInv(ss: seq<ServiceInfo<Label>>)
    requires forall s :: s in ss ==> BuiltService(s)
    ensures Inv(Start(ss))
  {
    hide ServiceIps, BuiltService;
    ServiceIpsAre(ss);
    var st := Start(ss);
    forall ip
      ensures ip in st.localIps <==> UsedIp(st, ip)
    {
    }
  }

  lemma QueriedInv(st: State, serviceType: seq<byte>, ip: LocalIp)
    requires Inv(st) && LabelText(serviceType)
    ensures Inv(Queried(st, serviceType, ip))
  {
    hide BuiltService, Segs, SplitDots;
    var q := Queried(st, serviceType, ip);
    QueriedIps(st, serviceType, ip);
    QueriedTargets(st.targets, serviceType, ip);
  }

  lemma QueriedIps(st: State, serviceType: seq<byte>, ip: LocalIp)
    requires ExactIps(st) && NoRepeats(st.localIps)
    ensures ExactIps(Queried(st, serviceType, ip)) && NoRepeats(Queried(st, serviceType, ip).localIps)
  {
    hide Segs, SplitDots;
    var q := Queried(st, serviceType, ip);
    forall x
      ensures x in q.localIps <==> UsedIp(q, x)
    {
      assert x in st.localIps <==> UsedIp(st, x);
      if x == ip {
        if Known(st.targets, serviceType, ip) {
          var i :| 0 <= i < |st.targets| && st.targets[i].localIp == ip;
          assert st.targets[i] in q.targets;
        } else {
          assert Target(Label([Str(serviceType)]), ip) in q.targets;
        }
      }
    }
  }

  lemma QueriedTargets(targets: seq<Target>, serviceType: seq<byte>, ip: LocalIp)
    requires DistinctTargets(targets) && LabelText(serviceType)
    ensures !Known(targets, serviceType, ip) ==> DistinctTargets(targets + [Target(Label([Str(serviceType)]), ip)])
  {
    hide ItemsSegs, StrSegs, SplitDots;
    SplitAgrees(serviceType);
    OnePart(serviceType);
    if serviceType == [] {
      NoText();
    }
  }

  lemma NoText()
    ensures StrSegs([]) == []
  {
  }

  lemma TimeoutInv(st: State, now: nat)
    requires Inv(st)
    ensures Inv(OnTimeout(st, now).0)
    ensures OnTimeout(st, now).0.services == st.services && OnTimeout(st, now).0.targets == st.targets
    ensures OnTimeout(st, now).0.localIps == st.localIps
  {
    hide BuiltService, Segs, After, Advertisement, Asking;
    var next := OnTimeout(st, now).0;
    assert forall ip :: UsedIp(st, ip) <==> UsedIp(next, ip);
    if st.services == [] {
      assert !AdvertiseDue(st, now);
    }
  }

  // ---------------------------------------------------------------- runs

  datatype Event =
    | Ask(serviceType: seq<byte>, ip: LocalIp)
    | Tick(now: nat)
    | Packet(data: seq<byte>, from: SocketAddr)

  predicate Legal(e: Event)
  {
    e.Ask? ==> LabelText(e.serviceType)
  }

  /** One input; a packet is answered without changing the server. */
  function Step(st: State, e: Event): State
    requires InRange(st)
  {
    match e
    case Ask(serviceType, ip) => Queried(st, serviceType, ip)
    case Tick(now) => OnTimeout(st, now).0
    case Packet(_, _) => st
  }

  lemma StepInv(st: State, e: Event)
    requires Inv(st) && Legal(e)
    ensures Inv(Step(st, e))
  {
    hide Inv;
    match e
    case Ask(serviceType, ip) => QueriedInv(st, serviceType, ip);
    case Tick(now) => TimeoutInv(st, now);
    case Packet(_, _) =>
  }

  /** `states` is a run of the server from `Start(ss)` through the inputs `events`. */
  ghost predicate IsRun(ss: seq<ServiceInfo<Label>>, events: seq<Event>, states: seq<State>)
  {
    && (forall s :: s in ss ==> BuiltService(s))
    && (forall e :: e in events ==> Legal(e))
    && |states| == |events| + 1 && states[0] == Start(ss)
    && forall i :: 0 <= i < |events| ==> InRange(states[i]) && states[i + 1] == Step(states[i], events[i])
  }

  /** The invariant holds at every moment of every run. */
  lemma {:induction false} ReachableInv(ss: seq<ServiceInfo<Label>>, events: seq<Event>, states: seq<State>, i: nat)
    requires IsRun(ss, events, states) && i < |states|
    ensures Inv(states[i])
    decreases i
  {
    hide Inv, Step, BuiltService, Legal, InRange;
    if i == 0 {
      StartInv(ss);
    } else {
      ReachableInv(ss, events, states, i - 1);
      assert events[i - 1] in events;
      assert states[i - 1 + 1] == Step(states[i - 1], events[i - 1]);
      StepInv(states[i - 1], events[i - 1]);
    }
  }

  // ---------------------------------------------------------------- the interface a reply leaves from

  lemma {:induction false} FacingExists(ips: seq<LocalIp>, from: IpAddr, ip: LocalIp)
    requires ip in ips && SameNetwork(ip.addr, ip.mask, from)
    ensures Facing(ips, from).Some?
  {
    hide SameNetwork;
    if ips[0] != ip {
      FacingExists(ips[1..], from, ip);
    }
  }

  lemma {:induction false} AskedReach(q: Query<Label>, ss: seq<ServiceInfo<Label>>, from: IpAddr, s: ServiceInfo<Label>)
    ensures s in Asked(q, ss, from) <==> s in ss && Asks(q, s, from)
  {
    hide Asks;
    if ss != [] {
      LastSplit(ss);
      AskedReach(q, ss[..|ss| - 1], from, s);
    }
  }

  lemma {:induction false} AllAskedReach(qs: seq<Query<Label>>, ss: seq<ServiceInfo<Label>>, from: IpAddr,
                                         s: ServiceInfo<Label>)
    ensures s in AllAsked(qs, ss, from) <==> s in ss && exists q :: q in qs && Asks(q, s, from)
  {
    hide Asks, Asked;
    if qs != [] {
      var n := |qs| - 1;
      LastSplit(qs);
      AllAskedReach(qs[..n], ss, from, s);
      AskedReach(qs[n], ss, from, s);
    }
  }

  /**
   The `unwrap` in `handle_request` never fails: whenever a reachable server has answers, one of its
   interfaces is in the sender's network.
   */
  lemma FacingFound(st: State, qs: seq<Query<Label>>, from: IpAddr)
    requires Inv(st) && qs != [] && Answering(st, qs, from) != []
    ensures Facing(st.localIps, from).Some?
  {
    hide Asked, Asks, SameNetwork, ViewAnswer, AsAnswers;
    var asked := AllAsked(qs, st.services, from);
    NothingToSay(qs[0].qclass);
    var s := asked[0];
    AllAskedReach(qs, st.services, from, s);
    var q :| q in qs && Asks(q, s, from);
    AsksReach(q, s, from);
    assert UsedIp(st, IpOf(s));
    FacingExists(st.localIps, from, IpOf(s));
  }

  lemma NothingToSay(c: QClass)
    ensures AllAnswers<Label>([], c) == [] && Dedup([]) == []
  {
  }

  lemma AsksReach(q: Query<Label>, s: ServiceInfo<Label>, from: IpAddr)
    requires Asks(q, s, from)
    ensures SameNetwork(IpOf(s).addr, IpOf(s).mask, from)
  {
  }
}

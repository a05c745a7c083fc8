/** What the join finds: last answers win, only the order within a kind matters, and announcing
    services and joining the answers gives the services back. */
module JoinTheory {
  import opened Bytes
  import opened Names
  import opened Messages
  import opened Services

  predicate IsSrv(x: Answer<Name>, instance: Name)
  {
    x.record.RecSRV? && x.name == instance
  }

  predicate IsAddr(x: Answer<Name>, host: Name)
  {
    Address(x.record).Some? && x.name == host
  }

  /** `LastSrv` is the SRV answer for the instance that no later one follows. */
  lemma {:induction false} LastSrvIsLast(xs: seq<Answer<Name>>, instance: Name)
    ensures LastSrv(xs, instance).None? <==> forall x :: x in xs ==> !IsSrv(x, instance)
    ensures LastSrv(xs, instance).Some? ==>
              exists i :: 0 <= i < |xs| && IsSrv(xs[i], instance)
                          && LastSrv(xs, instance) == Some((xs[i].record.target, xs[i].record.port))
                          && forall j :: i < j < |xs| ==> !IsSrv(xs[j], instance)
  {
    if xs != [] {
      var n := |xs| - 1;
      assert xs == xs[..n] + [xs[n]];
      LastSrvIsLast(xs[..n], instance);
      if IsSrv(xs[n], instance) {
        assert xs[n] in xs;
      } else if LastSrv(xs[..n], instance).Some? {
        var i :| 0 <= i < |xs[..n]| && IsSrv(xs[..n][i], instance)
                 && LastSrv(xs[..n], instance) == Some((xs[..n][i].record.target, xs[..n][i].record.port))
                 && forall j :: i < j < |xs[..n]| ==> !IsSrv(xs[..n][j], instance);
        assert IsSrv(xs[i], instance);
        assert forall j :: i < j < n ==> xs[..n][j] == xs[j];
      }
    }
  }

  lemma {:induction false} LastAddrIsLast(xs: seq<Answer<Name>>, host: Name)
    ensures LastAddr(xs, host).None? <==> forall x :: x in xs ==> !IsAddr(x, host)
    ensures LastAddr(xs, host).Some? ==>
              exists i :: 0 <= i < |xs| && IsAddr(xs[i], host)
                          && LastAddr(xs, host) == Address(xs[i].record)
                          && forall j :: i < j < |xs| ==> !IsAddr(xs[j], host)
  {
    if xs != [] {
      var n := |xs| - 1;
      assert xs == xs[..n] + [xs[n]];
      LastAddrIsLast(xs[..n], host);
      if IsAddr(xs[n], host) {
        assert xs[n] in xs;
      } else if LastAddr(xs[..n], host).Some? {
        var i :| 0 <= i < |xs[..n]| && IsAddr(xs[..n][i], host)
                 && LastAddr(xs[..n], host) == Address(xs[..n][i].record)
                 && forall j :: i < j < |xs[..n]| ==> !IsAddr(xs[..n][j], host);
        assert IsAddr(xs[i], host);
        assert forall j :: i < j < n ==> xs[..n][j] == xs[j];
      }
    }
  }

  // ---------------------------------------------------------------- order

  datatype Kind = Ptrs | Srvs | Addrs

  predicate OfKind(x: Answer<Name>, k: Kind)
  {
    match k
    case Ptrs => x.record.RecPTR?
    case Srvs => x.record.RecSRV?
    case Addrs => Address(x.record).Some?
  }

  /** The answers of one kind, in their order. */
  function Only(xs: seq<Answer<Name>>, k: Kind): seq<Answer<Name>>
  {
    if xs == [] then []
    else
      var x := xs[|xs| - 1];
      Only(xs[..|xs| - 1], k) + if OfKind(x, k) then [x] else []
  }

  lemma LastOf<T>(xs: seq<T>, x: T)
    ensures |xs + [x]| == |xs| + 1 && (xs + [x])[|xs|] == x && (xs + [x])[..|xs|] == xs
  {
  }

  lemma {:induction false} OnlySrvs(xs: seq<Answer<Name>>, instance: Name)
    ensures LastSrv(xs, instance) == LastSrv(Only(xs, Srvs), instance)
  {
    if xs != [] {
      var n := |xs| - 1;
      OnlySrvs(xs[..n], instance);
      LastOf(Only(xs[..n], Srvs), xs[n]);
      assert Only(xs[..n], Srvs) + [] == Only(xs[..n], Srvs);
    }
  }

  lemma {:induction false} OnlyAddrs(xs: seq<Answer<Name>>, host: Name)
    ensures LastAddr(xs, host) == LastAddr(Only(xs, Addrs), host)
  {
    if xs != [] {
      var n := |xs| - 1;
      OnlyAddrs(xs[..n], host);
      LastOf(Only(xs[..n], Addrs), xs[n]);
      assert Only(xs[..n], Addrs) + [] == Only(xs[..n], Addrs);
    }
  }

  lemma {:induction false} OnlyPtrs(xs: seq<Answer<Name>>)
    ensures Stubs(xs) == Stubs(Only(xs, Ptrs))
  {
    if xs != [] {
      var n := |xs| - 1;
      OnlyPtrs(xs[..n]);
      LastOf(Only(xs[..n], Ptrs), xs[n]);
      assert Only(xs[..n], Ptrs) + [] == Only(xs[..n], Ptrs);
    }
  }

  lemma {:induction false} ResolvedSame(stubs: seq<ServiceInfo<Name>>, xs: seq<Answer<Name>>, ys: seq<Answer<Name>>)
    requires forall n :: LastSrv(xs, n) == LastSrv(ys, n)
    requires forall n :: LastAddr(xs, n) == LastAddr(ys, n)
    ensures Resolved(stubs, xs) == Resolved(stubs, ys)
  {
    hide LastSrv, LastAddr;
    if stubs != [] {
      ResolvedSame(stubs[..|stubs| - 1], xs, ys);
    }
  }

  /** How answers of different kinds are interleaved does not matter to the join. */
  lemma OrderBetweenKinds(xs: seq<Answer<Name>>, ys: seq<Answer<Name>>)
    requires forall k :: Only(xs, k) == Only(ys, k)
    ensures Join(xs) == Join(ys)
  {
    hide LastSrv, LastAddr, Only, Resolved, Stubs;
    forall n
      ensures LastSrv(xs, n) == LastSrv(ys, n) && LastAddr(xs, n) == LastAddr(ys, n)
    {
      OnlySrvs(xs, n);
      OnlySrvs(ys, n);
      OnlyAddrs(xs, n);
      OnlyAddrs(ys, n);
      assert Only(xs, Srvs) == Only(ys, Srvs) && Only(xs, Addrs) == Only(ys, Addrs);
    }
    OnlyPtrs(xs);
    OnlyPtrs(ys);
    assert Only(xs, Ptrs) == Only(ys, Ptrs);
    ResolvedSame(Stubs(xs), xs, ys);
  }

  // ---------------------------------------------------------------- the inverse

  predicate Tells(x: Answer<Name>, s: ServiceInfo<Name>, c: QClass)
  {
    x == PtrAnswer(s, c) || x == SrvAnswer(s, c) || x == TxtAnswer(s, c) || x == IpAnswer(s, c)
  }

  lemma TellsIs(s: ServiceInfo<Name>, c: QClass)
    ensures forall x :: x in AsAnswers(s, c) <==> Tells(x, s, c)
  {
    assert AsAnswers(s, c)[0] == PtrAnswer(s, c) && AsAnswers(s, c)[1] == SrvAnswer(s, c);
    assert AsAnswers(s, c)[2] == TxtAnswer(s, c) && AsAnswers(s, c)[3] == IpAnswer(s, c);
  }

  ghost predicate ToldBy(x: Answer<Name>, ss: seq<ServiceInfo<Name>>, c: QClass)
  {
    exists s :: s in ss && Tells(x, s, c)
  }

  lemma Teller(x: Answer<Name>, ss: seq<ServiceInfo<Name>>, c: QClass) returns (s: ServiceInfo<Name>)
    requires ToldBy(x, ss, c)
    ensures s in ss && Tells(x, s, c)
  {
    s :| s in ss && Tells(x, s, c);
  }

  /** Every answer announces one of the services, and all of them are announced. */
  ghost predicate Announce(xs: seq<Answer<Name>>, ss: seq<ServiceInfo<Name>>, c: QClass)
  {
    && (forall x :: x in xs ==> ToldBy(x, ss, c))
    && (forall s :: s in ss ==> SrvAnswer(s, c) in xs && IpAnswer(s, c) in xs)
  }

  /** No two services share an instance name. */
  ghost predicate DistinctInstances(ss: seq<ServiceInfo<Name>>)
  {
    forall s, t :: s in ss && t in ss && s.instanceName == t.instanceName ==> s == t
  }

  /** A host has one address. */
  ghost predicate OneAddress(ss: seq<ServiceInfo<Name>>)
  {
    forall s, t :: s in ss && t in ss && s.hostname == t.hostname ==> s.ip == t.ip
  }

  function FullMask(ip: IpAddr): IpAddr
  {
    if ip.V4? then FULL_V4 else FULL_V6
  }

  /** A service as its announcement tells it: the mask is not part of it. */
  function Masked(ss: seq<ServiceInfo<Name>>): (r: seq<ServiceInfo<Name>>)
    ensures |r| == |ss|
  {
    if ss == [] then [] else Masked(ss[..|ss| - 1]) + [ss[|ss| - 1].(netmask := FullMask(ss[|ss| - 1].ip))]
  }

  function Bare(s: ServiceInfo<Name>): ServiceInfo<Name>
  {
    ServiceInfo(s.serviceType, s.instanceName, [], DEFAULT_ADDR, DEFAULT_ADDR, 0)
  }

  function Bares(ss: seq<ServiceInfo<Name>>): seq<ServiceInfo<Name>>
  {
    if ss == [] then [] else Bares(ss[..|ss| - 1]) + [Bare(ss[|ss| - 1])]
  }

  /** The SRV answers for an instance all come from services of that instance. */
  lemma SrvFrom(xs: seq<Answer<Name>>, ss: seq<ServiceInfo<Name>>, c: QClass, s: ServiceInfo<Name>)
    returns (t: ServiceInfo<Name>)
    requires Announce(xs, ss, c) && s in ss
    ensures t in ss && t.instanceName == s.instanceName
    ensures LastSrv(xs, s.instanceName) == Some((t.hostname, t.port))
  {
    hide LastSrv, ToldBy;
    LastSrvIsLast(xs, s.instanceName);
    assert IsSrv(SrvAnswer(s, c), s.instanceName);
    var i :| 0 <= i < |xs| && IsSrv(xs[i], s.instanceName)
             && LastSrv(xs, s.instanceName) == Some((xs[i].record.target, xs[i].record.port));
    var x := xs[i];
    assert x in xs && ToldBy(x, ss, c);
    t := Teller(x, ss, c);
  }

  lemma AddrFrom(xs: seq<Answer<Name>>, ss: seq<ServiceInfo<Name>>, c: QClass, s: ServiceInfo<Name>)
    returns (t: ServiceInfo<Name>)
    requires Announce(xs, ss, c) && s in ss
    ensures t in ss && t.hostname == s.hostname
    ensures LastAddr(xs, s.hostname) == Some((t.ip, FullMask(t.ip)))
  {
    hide LastAddr, ToldBy;
    LastAddrIsLast(xs, s.hostname);
    assert IsAddr(IpAnswer(s, c), s.hostname);
    var i :| 0 <= i < |xs| && IsAddr(xs[i], s.hostname) && LastAddr(xs, s.hostname) == Address(xs[i].record);
    var x := xs[i];
    assert x in xs && ToldBy(x, ss, c);
    t := Teller(x, ss, c);
  }

  lemma {:induction false} ResolvedAll(part: seq<ServiceInfo<Name>>, xs: seq<Answer<Name>>,
                                       ss: seq<ServiceInfo<Name>>, c: QClass)
    requires Announce(xs, ss, c) && DistinctInstances(ss) && OneAddress(ss)
    requires forall s :: s in part ==> s in ss && Complete(s)
    ensures Resolved(Bares(part), xs) == Masked(part)
  {
    hide LastSrv, LastAddr, Announce;
    if part != [] {
      var n := |part| - 1;
      var s := part[n];
      ResolvedAll(part[..n], xs, ss, c);
      var t := SrvFrom(xs, ss, c, s);
      assert t == s;
      var u := AddrFrom(xs, ss, c, s);
      assert u.ip == s.ip;
      LastOf(Bares(part[..n]), Bare(s));
      assert Resolve(Bare(s), xs) == s.(netmask := FullMask(s.ip));
    }
  }

  /** Joining answers that announce complete services gives the services, in the order of their PTRs. */
  lemma JoinInverts(xs: seq<Answer<Name>>, ss: seq<ServiceInfo<Name>>, c: QClass)
    requires Stubs(xs) == Bares(ss) && Announce(xs, ss, c)
    requires DistinctInstances(ss) && OneAddress(ss) && forall s :: s in ss ==> Complete(s)
    ensures Join(xs) == Masked(ss)
  {
    hide Resolved, Announce;
    ResolvedAll(ss, xs, ss, c);
  }

  lemma {:induction false} AllAnnounce(ss: seq<ServiceInfo<Name>>, c: QClass)
    ensures Announce(AllAnswers(ss, c), ss, c)
  {
    hide AsAnswers, ToldBy;
    if ss != [] {
      var n := |ss| - 1;
      var s, before := ss[n], ss[..n];
      AllAnnounce(before, c);
      assert ss == before + [s];
      var xs := AllAnswers(before, c);
      TellsIs(s, c);
      forall x | x in xs + AsAnswers(s, c)
        ensures ToldBy(x, ss, c)
      {
        ToldMore(x, before, s, c);
      }
      assert SrvAnswer(s, c) in AsAnswers(s, c) && IpAnswer(s, c) in AsAnswers(s, c);
    }
  }

  lemma ToldMore(x: Answer<Name>, before: seq<ServiceInfo<Name>>, s: ServiceInfo<Name>, c: QClass)
    requires ToldBy(x, before, c) || Tells(x, s, c)
    ensures ToldBy(x, before + [s], c)
  {
    if ToldBy(x, before, c) {
      var t := Teller(x, before, c);
      assert t in before + [s];
    } else {
      assert s in before + [s];
    }
  }

  lemma StubsOfFour(xs: seq<Answer<Name>>, s: ServiceInfo<Name>, c: QClass)
    ensures Stubs(xs + AsAnswers(s, c)) == Stubs(xs) + [Bare(s)]
  {
    var a, b, d, e := PtrAnswer(s, c), SrvAnswer(s, c), TxtAnswer(s, c), IpAnswer(s, c);
    assert xs + AsAnswers(s, c) == xs + [a] + [b] + [d] + [e];
    LastOf(xs, a);
    LastOf(xs + [a], b);
    LastOf(xs + [a] + [b], d);
    LastOf(xs + [a] + [b] + [d], e);
    assert Stub(a) == Bare(s);
    assert Stubs(xs + [a]) == Stubs(xs) + [Bare(s)];
    var r := Stubs(xs) + [Bare(s)];
    assert r + [] == r;
    assert Stubs(xs + [a] + [b]) == r;
    assert Stubs(xs + [a] + [b] + [d]) == r;
  }

  lemma {:induction false} AllStubs(ss: seq<ServiceInfo<Name>>, c: QClass)
    ensures Stubs(AllAnswers(ss, c)) == Bares(ss)
  {
    hide AsAnswers, Stubs;
    if ss == [] {
      NoStubs();
    } else {
      AllStubs(ss[..|ss| - 1], c);
      StubsOfFour(AllAnswers(ss[..|ss| - 1], c), ss[|ss| - 1], c);
    }
  }

  lemma NoStubs()
    ensures Stubs([]) == []
  {
  }

  /**
   `from_answers` inverts `as_answers`: complete services with distinct instances, and one address
   for every host, come back in order from their concatenated answers, but for the netmask.
   */
  lemma AnnouncedServicesReturn(ss: seq<ServiceInfo<Name>>, c: QClass)
    requires DistinctInstances(ss) && OneAddress(ss) && forall s :: s in ss ==> Complete(s)
    ensures Join(AllAnswers(ss, c)) == Masked(ss)
  {
    hide AllAnswers, Stubs, Announce;
    AllAnnounce(ss, c);
    AllStubs(ss, c);
    JoinInverts(AllAnswers(ss, c), ss, c);
  }
}

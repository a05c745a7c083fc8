/** The services found in answers, exactly, told from the positions of the answers alone. */
module JoinExact {
  import opened Bytes
  import opened Names
  import opened Messages
  import opened Services
  import opened JoinTheory

  /** Answer `i` is an SRV of this instance, and no later one is. */
  predicate LastSrvAt(xs: seq<Answer<Name>>, i: nat, instance: Name)
  {
    && i < |xs| && xs[i].record.RecSRV? && xs[i].name == instance
    && forall j :: i < j < |xs| && xs[j].record.RecSRV? ==> xs[j].name != instance
  }

  /** Answer `i` is an address of this host, and no later one is. */
  predicate LastAddrAt(xs: seq<Answer<Name>>, i: nat, host: Name)
  {
    && i < |xs| && (xs[i].record.RecA? || xs[i].record.RecAAAA?) && xs[i].name == host
    && forall j :: i < j < |xs| && (xs[j].record.RecA? || xs[j].record.RecAAAA?) ==> xs[j].name != host
  }

  /** The address an answer gives, with all bits of the mask set. */
  predicate Gives(r: Record<Name>, s: ServiceInfo<Name>)
  {
    match r
    case RecA(v4) => s.ip == V4(v4) && s.netmask == V4([255, 255, 255, 255])
    case RecAAAA(v6) =>
      s.ip == V6(v6)
      && s.netmask == V6([255, 255, 255, 255, 255, 255, 255, 255, 255, 255, 255, 255, 255, 255, 255, 255])
    case _ => false
  }

  /** A service with all that a discovery needs: no name is empty, and there is an address and a port. */
  predicate Known(s: ServiceInfo<Name>)
  {
    && s.serviceType != [] && s.instanceName != [] && s.hostname != []
    && s.ip != V4([0, 0, 0, 0]) && s.port != 0
  }

  /**
   The PTR answer `k` finds the service `s`: its type and instance are those of the PTR, its host and
   port those of the last SRV of that instance, its address the last one of that host, and none of
   them is missing.
   */
  ghost predicate Finds(xs: seq<Answer<Name>>, k: nat, s: ServiceInfo<Name>)
  {
    && k < |xs| && xs[k].record.RecPTR? && s.serviceType == xs[k].name && s.instanceName == xs[k].record.name
    && Known(s)
    && (exists i: nat :: LastSrvAt(xs, i, s.instanceName)
                    && s.hostname == xs[i].record.target && s.port == xs[i].record.port)
    && (exists i: nat :: LastAddrAt(xs, i, s.hostname) && Gives(xs[i].record, s))
  }

  lemma SrvAt(xs: seq<Answer<Name>>, instance: Name, i: nat)
    requires LastSrvAt(xs, i, instance)
    ensures LastSrv(xs, instance) == Some((xs[i].record.target, xs[i].record.port))
  {
    LastSrvIsLast(xs, instance);
    assert xs[i] in xs && IsSrv(xs[i], instance);
    var j :| 0 <= j < |xs| && IsSrv(xs[j], instance)
             && LastSrv(xs, instance) == Some((xs[j].record.target, xs[j].record.port))
             && forall k :: j < k < |xs| ==> !IsSrv(xs[k], instance);
    assert i == j;
  }

  lemma AddrAt(xs: seq<Answer<Name>>, host: Name, i: nat)
    requires LastAddrAt(xs, i, host)
    ensures LastAddr(xs, host) == Address(xs[i].record)
  {
    LastAddrIsLast(xs, host);
    assert xs[i] in xs && IsAddr(xs[i], host);
    var j :| 0 <= j < |xs| && IsAddr(xs[j], host) && LastAddr(xs, host) == Address(xs[j].record)
             && forall k :: j < k < |xs| ==> !IsAddr(xs[k], host);
    assert i == j;
  }

  lemma SrvIndex(xs: seq<Answer<Name>>, instance: Name) returns (i: nat)
    requires LastSrv(xs, instance).Some?
    ensures LastSrvAt(xs, i, instance)
  {
    LastSrvIsLast(xs, instance);
    i :| 0 <= i < |xs| && IsSrv(xs[i], instance)
         && LastSrv(xs, instance) == Some((xs[i].record.target, xs[i].record.port))
         && forall k :: i < k < |xs| ==> !IsSrv(xs[k], instance);
    forall j | i < j < |xs| && xs[j].record.RecSRV?
      ensures xs[j].name != instance
    {
      assert !IsSrv(xs[j], instance);
    }
  }

  lemma AddrIndex(xs: seq<Answer<Name>>, host: Name) returns (i: nat)
    requires LastAddr(xs, host).Some?
    ensures LastAddrAt(xs, i, host)
  {
    LastAddrIsLast(xs, host);
    i :| 0 <= i < |xs| && IsAddr(xs[i], host) && LastAddr(xs, host) == Address(xs[i].record)
         && forall k :: i < k < |xs| ==> !IsAddr(xs[k], host);
    forall j | i < j < |xs| && (xs[j].record.RecA? || xs[j].record.RecAAAA?)
      ensures xs[j].name != host
    {
      assert !IsAddr(xs[j], host);
    }
  }

  /** What one PTR answer is resolved to, and when it is kept. */
  lemma ResolveFinds(xs: seq<Answer<Name>>, k: nat, s: ServiceInfo<Name>)
    requires k < |xs| && xs[k].record.RecPTR?
    ensures Finds(xs, k, s) <==> Complete(s) && s == Resolve(Stub(xs[k]), xs)
  {
    hide LastSrv, LastAddr;
    var stub := Stub(xs[k]);
    var r := Resolve(stub, xs);
    if Finds(xs, k, s) {
      var i: nat :| LastSrvAt(xs, i, s.instanceName)
                    && s.hostname == xs[i].record.target && s.port == xs[i].record.port;
      SrvAt(xs, s.instanceName, i);
      var j: nat :| LastAddrAt(xs, j, s.hostname) && Gives(xs[j].record, s);
      AddrAt(xs, s.hostname, j);
    }
    if Complete(r) {
      var i := SrvIndex(xs, r.instanceName);
      SrvAt(xs, r.instanceName, i);
      var j := AddrIndex(xs, r.hostname);
      AddrAt(xs, r.hostname, j);
    }
  }

  /** `ks` are the PTR answers that found `found`, in order, and no other found anything. */
  ghost predicate FoundAt(xs: seq<Answer<Name>>, m: nat, found: seq<ServiceInfo<Name>>, ks: seq<nat>)
  {
    && |ks| == |found|
    && (forall n :: 0 <= n < |ks| ==> ks[n] < m && Finds(xs, ks[n], found[n]))
    && (forall n, o :: 0 <= n < o < |ks| ==> ks[n] < ks[o])
    && (forall k: nat, s :: k < m && Finds(xs, k, s) ==> k in ks)
  }

  lemma {:induction false} JoinUpTo(xs: seq<Answer<Name>>, m: nat) returns (ks: seq<nat>)
    requires m <= |xs|
    ensures FoundAt(xs, m, Resolved(Stubs(xs[..m]), xs), ks)
    decreases m
  {
    hide FoundAt, Finds, Resolved, Stubs, Resolve, Complete;
    if m == 0 {
      ks := [];
      NothingYet(xs);
      assert xs[..0] == [];
    } else {
      var n := m - 1;
      ks := JoinUpTo(xs, n);
      var found := Resolved(Stubs(xs[..n]), xs);
      JoinStep(xs, n);
      if xs[n].record.RecPTR? && Complete(Resolve(Stub(xs[n]), xs)) {
        var r := Resolve(Stub(xs[n]), xs);
        ResolveFinds(xs, n, r);
        MoreFound(xs, n, found, ks, r);
        ks := ks + [n];
      } else {
        NoneAt(xs, n);
        NoneFound(xs, n, found, ks);
        assert found + [] == found;
      }
    }
  }

  lemma NothingYet(xs: seq<Answer<Name>>)
    ensures FoundAt(xs, 0, Resolved(Stubs([]), xs), [])
  {
  }

  lemma StubStep(xs: seq<Answer<Name>>, n: nat)
    requires n < |xs|
    ensures Stubs(xs[..n + 1]) == if xs[n].record.RecPTR? then Stubs(xs[..n]) + [Stub(xs[n])] else Stubs(xs[..n])
  {
    hide Stub;
    var ys := xs[..n + 1];
    assert ys[..n] == xs[..n] && ys[n] == xs[n] && |ys| == n + 1;
    assert Stubs(xs[..n]) + [] == Stubs(xs[..n]);
  }

  lemma ResolvedStep(stubs: seq<ServiceInfo<Name>>, stub: ServiceInfo<Name>, xs: seq<Answer<Name>>)
    ensures Resolved(stubs + [stub], xs) ==
            Resolved(stubs, xs) + if Complete(Resolve(stub, xs)) then [Resolve(stub, xs)] else []
  {
    hide Resolve, Complete;
    LastOf(stubs, stub);
  }

  lemma JoinStep(xs: seq<Answer<Name>>, n: nat)
    requires n < |xs|
    ensures Resolved(Stubs(xs[..n + 1]), xs) ==
            Resolved(Stubs(xs[..n]), xs) +
            if xs[n].record.RecPTR? && Complete(Resolve(Stub(xs[n]), xs)) then [Resolve(Stub(xs[n]), xs)] else []
  {
    hide Resolve, Complete, Resolved, Stubs, Stub;
    StubStep(xs, n);
    var found := Resolved(Stubs(xs[..n]), xs);
    assert found + [] == found;
    if xs[n].record.RecPTR? {
      ResolvedStep(Stubs(xs[..n]), Stub(xs[n]), xs);
    }
  }

  lemma NoneAt(xs: seq<Answer<Name>>, n: nat)
    requires n < |xs| && !(xs[n].record.RecPTR? && Complete(Resolve(Stub(xs[n]), xs)))
    ensures forall s :: !Finds(xs, n, s)
  {
    hide Finds, Resolve, Complete;
    if xs[n].record.RecPTR? {
      forall s
        ensures !Finds(xs, n, s)
      {
        ResolveFinds(xs, n, s);
      }
    } else {
      NotPtr(xs, n);
    }
  }

  lemma NotPtr(xs: seq<Answer<Name>>, k: nat)
    requires k < |xs| && !xs[k].record.RecPTR?
    ensures forall s :: !Finds(xs, k, s)
  {
  }

  lemma MoreFound(xs: seq<Answer<Name>>, n: nat, found: seq<ServiceInfo<Name>>, ks: seq<nat>, r: ServiceInfo<Name>)
    requires FoundAt(xs, n, found, ks) && Finds(xs, n, r)
    ensures FoundAt(xs, n + 1, found + [r], ks + [n])
  {
    hide Finds;
    forall k: nat, s | k < n + 1 && Finds(xs, k, s)
      ensures k in ks + [n]
    {
      if k < n {
        assert k in ks;
      } else {
        assert (ks + [n])[|ks|] == n;
      }
    }
  }

  lemma NoneFound(xs: seq<Answer<Name>>, n: nat, found: seq<ServiceInfo<Name>>, ks: seq<nat>)
    requires FoundAt(xs, n, found, ks) && forall s :: !Finds(xs, n, s)
    ensures FoundAt(xs, n + 1, found, ks)
  {
    hide Finds;
  }

  /**
   The join, exactly: it lists, in the order of their PTR answers, the services that these find, each
   with all its names, an address and a port; and a PTR answer that finds one is never left out.
   */
  lemma JoinExactly(xs: seq<Answer<Name>>) returns (ks: seq<nat>)
    ensures FoundAt(xs, |xs|, Join(xs), ks)
    ensures forall s :: s in Join(xs) <==> exists k: nat :: Finds(xs, k, s)
  {
    hide Finds, Resolved, Stubs;
    ks := JoinUpTo(xs, |xs|);
    assert xs[..|xs|] == xs;
    var found := Join(xs);
    forall s
      ensures s in found <==> exists k: nat :: Finds(xs, k, s)
    {
      if s in found {
        var n :| 0 <= n < |found| && found[n] == s;
        assert Finds(xs, ks[n], s);
      }
      if exists k: nat :: Finds(xs, k, s) {
        var k: nat :| Finds(xs, k, s);
        InBounds(xs, k, s);
        var n :| 0 <= n < |ks| && ks[n] == k;
        OneFound(xs, k, s, found[n]);
      }
    }
  }

  lemma InBounds(xs: seq<Answer<Name>>, k: nat, s: ServiceInfo<Name>)
    requires Finds(xs, k, s)
    ensures k < |xs| && xs[k].record.RecPTR?
  {
  }

  lemma OneFound(xs: seq<Answer<Name>>, k: nat, s: ServiceInfo<Name>, t: ServiceInfo<Name>)
    requires Finds(xs, k, s) && Finds(xs, k, t)
    ensures s == t
  {
    InBounds(xs, k, s);
    ResolveFinds(xs, k, s);
    ResolveFinds(xs, k, t);
  }
}

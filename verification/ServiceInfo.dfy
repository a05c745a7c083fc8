/** Services, the answers that announce them, and the join that finds them in answers. */
module Services {
  import opened Bytes
  import opened Names
  import opened Messages

  datatype IpAddr = V4(v4: Octets4) | V6(v6: Octets16)

  const DEFAULT_ADDR: IpAddr := V4([0, 0, 0, 0])
  const FULL_V4: IpAddr := V4([255, 255, 255, 255])
  const FULL_V6: IpAddr := V6([255, 255, 255, 255, 255, 255, 255, 255, 255, 255, 255, 255, 255, 255, 255, 255])

  datatype ServiceInfo<N> =
    ServiceInfo(serviceType: N, instanceName: N, hostname: N, ip: IpAddr, netmask: IpAddr, port: u16)

  function ViewService(s: ServiceInfo<Label>): ServiceInfo<Name>
  {
    ServiceInfo(Segs(s.serviceType), Segs(s.instanceName), Segs(s.hostname), s.ip, s.netmask, s.port)
  }

  function ViewServices(ss: seq<ServiceInfo<Label>>): (r: seq<ServiceInfo<Name>>)
    ensures |r| == |ss|
    ensures forall i :: 0 <= i < |ss| ==> r[i] == ViewService(ss[i])
  {
    seq(|ss|, i requires 0 <= i < |ss| => ViewService(ss[i]))
  }

  /** A service of one host: its instance name is the instance in front of the service type. */
  function NewService(serviceType: seq<byte>, instance: seq<byte>, hostname: seq<byte>,
                      ip: IpAddr, netmask: IpAddr, port: u16): ServiceInfo<Label>
  {
    ServiceInfo(Label([Str(serviceType)]), Label([Str(instance), Str(serviceType)]), Label([Str(hostname)]),
                ip, netmask, port)
  }

  // ---------------------------------------------------------------- announcing

  function PtrAnswer<N>(s: ServiceInfo<N>, aclass: QClass): Answer<N>
  {
    Answer(s.serviceType, PTR, IN, 4500, RecPTR(s.instanceName))
  }

  function SrvAnswer<N>(s: ServiceInfo<N>, aclass: QClass): Answer<N>
  {
    Answer(s.instanceName, SRV, aclass, 120, RecSRV(0, 0, s.port, s.hostname))
  }

  function TxtAnswer<N>(s: ServiceInfo<N>, aclass: QClass): Answer<N>
  {
    Answer(s.instanceName, TXT, aclass, 120, RecTXT([0]))
  }

  function IpAnswer<N>(s: ServiceInfo<N>, aclass: QClass): Answer<N>
  {
    match s.ip
    case V4(v4) => Answer(s.hostname, A, aclass, 120, RecA(v4))
    case V6(v6) => Answer(s.hostname, AAAA, IN, 120, RecAAAA(v6))
  }

  function AsAnswers<N>(s: ServiceInfo<N>, aclass: QClass): (r: seq<Answer<N>>)
    ensures |r| == 4
  {
    [PtrAnswer(s, aclass), SrvAnswer(s, aclass), TxtAnswer(s, aclass), IpAnswer(s, aclass)]
  }

  function AllAnswers<N>(ss: seq<ServiceInfo<N>>, aclass: QClass): seq<Answer<N>>
  {
    if ss == [] then [] else AllAnswers(ss[..|ss| - 1], aclass) + AsAnswers(ss[|ss| - 1], aclass)
  }

  // ---------------------------------------------------------------- the join

  /** Host and port of the last SRV answer for an instance. */
  function LastSrv(xs: seq<Answer<Name>>, instance: Name): Option<(Name, u16)>
  {
    if xs == [] then None
    else
      var x := xs[|xs| - 1];
      if x.record.RecSRV? && x.name == instance then Some((x.record.target, x.record.port))
      else LastSrv(xs[..|xs| - 1], instance)
  }

  function Address(r: Record<Name>): Option<(IpAddr, IpAddr)>
  {
    match r
    case RecA(v4) => Some((V4(v4), FULL_V4))
    case RecAAAA(v6) => Some((V6(v6), FULL_V6))
    case _ => None
  }

  /** Address and full mask of the last A or AAAA answer for a host. */
  function LastAddr(xs: seq<Answer<Name>>, host: Name): Option<(IpAddr, IpAddr)>
  {
    if xs == [] then None
    else
      var x := xs[|xs| - 1];
      if Address(x.record).Some? && x.name == host then Address(x.record)
      else LastAddr(xs[..|xs| - 1], host)
  }

  function Stub(x: Answer<Name>): ServiceInfo<Name>
    requires x.record.RecPTR?
  {
    ServiceInfo(x.name, x.record.name, [], DEFAULT_ADDR, DEFAULT_ADDR, 0)
  }

  /** One stub per PTR answer, in order. */
  function Stubs(xs: seq<Answer<Name>>): seq<ServiceInfo<Name>>
  {
    if xs == [] then []
    else
      var x := xs[|xs| - 1];
      Stubs(xs[..|xs| - 1]) + if x.record.RecPTR? then [Stub(x)] else []
  }

  function WithSrv(s: ServiceInfo<Name>, xs: seq<Answer<Name>>): ServiceInfo<Name>
  {
    match LastSrv(xs, s.instanceName)
    case None => s
    case Some((host, port)) => s.(hostname := host, port := port)
  }

  function WithAddr(s: ServiceInfo<Name>, xs: seq<Answer<Name>>): ServiceInfo<Name>
  {
    match LastAddr(xs, s.hostname)
    case None => s
    case Some((ip, mask)) => s.(ip := ip, netmask := mask)
  }

  predicate Complete(s: ServiceInfo<Name>)
  {
    s.serviceType != [] && s.instanceName != [] && s.hostname != [] && s.ip != DEFAULT_ADDR && s.port != 0
  }

  function Resolve(s: ServiceInfo<Name>, xs: seq<Answer<Name>>): ServiceInfo<Name>
  {
    WithAddr(WithSrv(s, xs), xs)
  }

  /** The stubs, each resolved, the complete ones only. */
  function Resolved(stubs: seq<ServiceInfo<Name>>, xs: seq<Answer<Name>>): seq<ServiceInfo<Name>>
  {
    if stubs == [] then []
    else
      var s := Resolve(stubs[|stubs| - 1], xs);
      Resolved(stubs[..|stubs| - 1], xs) + if Complete(s) then [s] else []
  }

  /** The services found in answers: every PTR with its last SRV and the last address of its host. */
  function Join(xs: seq<Answer<Name>>): seq<ServiceInfo<Name>>
  {
    Resolved(Stubs(xs), xs)
  }

  // ---------------------------------------------------------------- the loops

  lemma Snoc<T>(xs: seq<T>, i: nat)
    requires i < |xs|
    ensures xs[..i + 1] == xs[..i] + [xs[i]]
    ensures xs[..i + 1][..i] == xs[..i]
  {
  }

  predicate WholeService(s: ServiceInfo<Label>)
  {
    WholeParts(s.serviceType.items) && WholeParts(s.instanceName.items) && WholeParts(s.hostname.items)
  }

  method MakeStubs(answers: seq<Answer<Label>>) returns (output: seq<ServiceInfo<Label>>)
    requires forall x :: x in answers ==> WholeAnswer(x)
    ensures ViewServices(output) == Stubs(ViewAnswers(answers))
    ensures forall s :: s in output ==> WholeService(s)
  {
    ViewAnswersAt(answers);
    ghost var xs := ViewAnswers(answers);
    output := [];
    for i := 0 to |answers|
      invariant ViewServices(output) == Stubs(xs[..i])
      invariant forall s :: s in output ==> WholeService(s)
    {
      Snoc(xs, i);
      if answers[i].record.RecPTR? {
        assert WholeAnswer(answers[i]);
        var stub := ServiceInfo(answers[i].name, answers[i].record.name, Label([]), DEFAULT_ADDR, DEFAULT_ADDR, 0);
        assert ViewServices(output + [stub]) == ViewServices(output) + [ViewService(stub)];
        output := output + [stub];
      }
    }
    assert xs[..|answers|] == xs;
  }

  lemma LastSrvSnoc(xs: seq<Answer<Name>>, i: nat, instance: Name)
    requires i < |xs|
    ensures LastSrv(xs[..i + 1], instance) ==
            if xs[i].record.RecSRV? && xs[i].name == instance then Some((xs[i].record.target, xs[i].record.port))
            else LastSrv(xs[..i], instance)
  {
    Snoc(xs, i);
  }

  lemma LastAddrSnoc(xs: seq<Answer<Name>>, i: nat, host: Name)
    requires i < |xs|
    ensures LastAddr(xs[..i + 1], host) ==
            if Address(xs[i].record).Some? && xs[i].name == host then Address(xs[i].record)
            else LastAddr(xs[..i], host)
  {
    Snoc(xs, i);
  }

  /** Step 2: merge every SRV answer into the stubs of its instance, in place. */
  method MergeSrv(answers: seq<Answer<Label>>, stubs: seq<ServiceInfo<Label>>) returns (output: seq<ServiceInfo<Label>>)
    requires forall x :: x in answers ==> WholeAnswer(x)
    requires forall s :: s in stubs ==> WholeService(s)
    ensures |output| == |stubs| && forall s :: s in output ==> WholeService(s)
    ensures forall j :: 0 <= j < |output| ==>
              ViewService(output[j]) == WithSrv(ViewService(stubs[j]), ViewAnswers(answers))
  {
    hide ItemsSegs, LastSrv;
    ViewAnswersAt(answers);
    ghost var xs := ViewAnswers(answers);
    output := stubs;
    SrvStart(xs);
    for i := 0 to |answers|
      invariant |output| == |stubs| && forall s :: s in output ==> WholeService(s)
      invariant forall j :: 0 <= j < |output| ==> ViewService(output[j]) == WithSrv(ViewService(stubs[j]), xs[..i])
    {
      var answer := answers[i];
      assert WholeAnswer(answer);
      if answer.record.RecSRV? {
        for k := 0 to |output|
          invariant |output| == |stubs| && forall s :: s in output ==> WholeService(s)
          invariant forall j :: 0 <= j < k ==> ViewService(output[j]) == WithSrv(ViewService(stubs[j]), xs[..i + 1])
          invariant forall j :: k <= j < |output| ==> ViewService(output[j]) == WithSrv(ViewService(stubs[j]), xs[..i])
        {
          LastSrvSnoc(xs, i, Segs(stubs[k].instanceName));
          assert WholeService(output[k]);
          var same := LabelEq(output[k].instanceName, answer.name);
          if same {
            output := output[k := output[k].(hostname := answer.record.target, port := answer.record.port)];
          }
        }
      } else {
        forall j | 0 <= j < |output|
          ensures WithSrv(ViewService(stubs[j]), xs[..i + 1]) == WithSrv(ViewService(stubs[j]), xs[..i])
        {
          LastSrvSnoc(xs, i, Segs(stubs[j].instanceName));
        }
      }
    }
    assert xs[..|answers|] == xs;
  }

  lemma SrvStart(xs: seq<Answer<Name>>)
    ensures xs[..0] == [] && forall s :: WithSrv(s, xs[..0]) == s
  {
  }

  lemma AddrStart(xs: seq<Answer<Name>>)
    ensures xs[..0] == [] && forall s :: WithAddr(s, xs[..0]) == s
  {
  }

  /** Step 3: merge every A and AAAA answer into the stubs of its host, in place. */
  method MergeAddr(answers: seq<Answer<Label>>, stubs: seq<ServiceInfo<Label>>)
    returns (output: seq<ServiceInfo<Label>>)
    requires forall x :: x in answers ==> WholeAnswer(x)
    requires forall s :: s in stubs ==> WholeService(s)
    ensures |output| == |stubs| && forall s :: s in output ==> WholeService(s)
    ensures forall j :: 0 <= j < |output| ==>
              ViewService(output[j]) == WithAddr(ViewService(stubs[j]), ViewAnswers(answers))
  {
    hide ItemsSegs, LastAddr;
    ViewAnswersAt(answers);
    ghost var xs := ViewAnswers(answers);
    output := stubs;
    AddrStart(xs);
    for i := 0 to |answers|
      invariant |output| == |stubs| && forall s :: s in output ==> WholeService(s)
      invariant forall j :: 0 <= j < |output| ==> ViewService(output[j]) == WithAddr(ViewService(stubs[j]), xs[..i])
    {
      var answer := answers[i];
      assert WholeAnswer(answer);
      if answer.record.RecA? || answer.record.RecAAAA? {
        var ip, mask := if answer.record.RecA? then V4(answer.record.v4) else V6(answer.record.v6),
                        if answer.record.RecA? then FULL_V4 else FULL_V6;
        for k := 0 to |output|
          invariant |output| == |stubs| && forall s :: s in output ==> WholeService(s)
          invariant forall j :: 0 <= j < k ==> ViewService(output[j]) == WithAddr(ViewService(stubs[j]), xs[..i + 1])
          invariant forall j :: k <= j < |output| ==> ViewService(output[j]) == WithAddr(ViewService(stubs[j]), xs[..i])
        {
          LastAddrSnoc(xs, i, Segs(stubs[k].hostname));
          assert WholeService(output[k]);
          var same := LabelEq(output[k].hostname, answer.name);
          if same {
            output := output[k := output[k].(ip := ip, netmask := mask)];
          }
        }
      } else {
        forall j | 0 <= j < |output|
          ensures WithAddr(ViewService(stubs[j]), xs[..i + 1]) == WithAddr(ViewService(stubs[j]), xs[..i])
        {
          LastAddrSnoc(xs, i, Segs(stubs[j].hostname));
        }
      }
    }
    assert xs[..|answers|] == xs;
  }

  /** `ServiceInfo::from_answers`, on an empty output list. */
  method FromAnswers(answers: seq<Answer<Label>>) returns (output: seq<ServiceInfo<Label>>)
    requires forall x :: x in answers ==> WholeAnswer(x)
    ensures ViewServices(output) == Join(ViewAnswers(answers))
    ensures forall s :: s in output ==> WholeService(s)
  {
    hide Stubs, WithSrv, WithAddr, ViewService, ViewAnswers, WholeAnswer, WholeService;
    var stubs := MakeStubs(answers);
    var merged := MergeSrv(answers, stubs);
    merged := MergeAddr(answers, merged);
    ghost var xs := ViewAnswers(answers);
    ghost var views := Stubs(xs);
    output := [];
    for i := 0 to |merged|
      invariant ViewServices(output) == Resolved(views[..i], xs)
      invariant forall s :: s in output ==> WholeService(s)
    {
      Snoc(views, i);
      assert views[i] == ViewService(stubs[i]);
      assert ViewServices(output + [merged[i]]) == ViewServices(output) + [ViewService(merged[i])];
      if Complete(ViewService(merged[i])) {
        output := output + [merged[i]];
      }
    }
    assert views[..|merged|] == views;
  }
}

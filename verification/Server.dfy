/** The Sans-IO server: its state and what every input does to it. */
module Servers {
  import opened Bytes
  import opened Names
  import opened LabelParser
  import opened Messages
  import opened Services
  import opened MessageIO
  import opened Received

  datatype LocalIp = LocalIp(addr: IpAddr, mask: IpAddr)
  datatype Target = Target(serviceType: Label, localIp: LocalIp)
  datatype SocketAddr = SocketAddr(ip: IpAddr, port: u16)
  datatype Cast = Multi(from: IpAddr) | Uni(from: IpAddr, target: SocketAddr)

  datatype State = State(
    lastNow: nat,
    services: seq<ServiceInfo<Label>>,
    targets: seq<Target>,
    localIps: seq<LocalIp>,
    nextAdvertise: nat,
    advertiseIdx: nat,
    nextQuery: nat,
    queryIdx: nat,
    txidQuery: u16,
    nextTxid: u16)

  const U64: nat := 0x1_0000_0000_0000_0000
  const FOREVER: nat := U64 - 1
  const ADVERTISE_INTERVAL: nat := 15000
  const QUERY_INTERVAL: nat := 19000

  const STANDARD_REQUEST: u16 := 0x0100
  const STANDARD_RESPONSE: u16 := 0x8400

  // ---------------------------------------------------------------- interfaces

  /** `a & b` on octets. */
  function BitAnd(a: nat, b: nat): nat
  {
    if a == 0 || b == 0 then 0 else a % 2 * (b % 2) + 2 * BitAnd(a / 2, b / 2)
  }

  predicate SameMasked(ip: seq<byte>, mask: seq<byte>, other: seq<byte>)
    requires |ip| == |mask| == |other|
  {
    forall i :: 0 <= i < |ip| ==> BitAnd(ip[i], mask[i]) == BitAnd(other[i], mask[i])
  }

  predicate SameNetwork(ip: IpAddr, mask: IpAddr, other: IpAddr)
  {
    match (ip, mask, other)
    case (V4(a), V4(m), V4(o)) => SameMasked(a, m, o)
    case (V6(a), V6(m), V6(o)) => SameMasked(a, m, o)
    case _ => false
  }

  function IpOf<N>(s: ServiceInfo<N>): LocalIp
  {
    LocalIp(s.ip, s.netmask)
  }

  function AddIp(ips: seq<LocalIp>, ip: LocalIp): seq<LocalIp>
  {
    if ip in ips then ips else ips + [ip]
  }

  /** The distinct interfaces of the services, in order of first use. */
  function ServiceIps(ss: seq<ServiceInfo<Label>>): seq<LocalIp>
  {
    if ss == [] then [] else AddIp(ServiceIps(ss[..|ss| - 1]), IpOf(ss[|ss| - 1]))
  }

  /** The services on an interface. */
  function On<N>(ss: seq<ServiceInfo<N>>, ip: LocalIp): seq<ServiceInfo<N>>
  {
    if ss == [] then []
    else On(ss[..|ss| - 1], ip) + if IpOf(ss[|ss| - 1]) == ip then [ss[|ss| - 1]] else []
  }

  // ---------------------------------------------------------------- steps

  function Start(ss: seq<ServiceInfo<Label>>): State
  {
    State(0, ss, [], ServiceIps(ss), if ss == [] then FOREVER else 3000, 0, if ss == [] then FOREVER else 5000, 0, 0, 1)
  }

  predicate Known(targets: seq<Target>, serviceType: seq<byte>, ip: LocalIp)
  {
    exists i :: 0 <= i < |targets| && targets[i].localIp == ip && Segs(targets[i].serviceType) == SplitDots(serviceType)
  }

  /** `Label::new` refuses text that ends in a dot. */
  predicate LabelText(s: seq<byte>)
  {
    Utf8(s) && (s == [] || s[|s| - 1] != DOT)
  }

  function Queried(st: State, serviceType: seq<byte>, ip: LocalIp): State
  {
    st.(targets := if Known(st.targets, serviceType, ip) then st.targets
                   else st.targets + [Target(Label([Str(serviceType)]), ip)],
        localIps := AddIp(st.localIps, ip),
        nextQuery := st.lastNow)
  }

  function PollTimeout(st: State): nat
  {
    if st.services == [] then st.nextQuery
    else if st.nextAdvertise <= st.nextQuery then st.nextAdvertise else st.nextQuery
  }

  /** What the server answers to an input: a message to send, the next timeout, or a discovery. */
  datatype Out = Send(message: Message<Label>, cast: Cast) | Wait(until: nat) | Found(service: ServiceInfo<Name>)

  function After(now: nat, interval: nat): nat
  {
    (now + interval) % U64
  }

  predicate AdvertiseDue(st: State, now: nat)
  {
    st.services != [] && now >= st.nextAdvertise
  }

  predicate QueryDue(st: State, now: nat)
  {
    st.localIps != [] && now >= st.nextQuery
  }

  function Advertisement(ss: seq<ServiceInfo<Label>>, ip: LocalIp): Message<Label>
  {
    Response(0, STANDARD_RESPONSE, [], AllAnswers(On(ss, ip), Multicast))
  }

  function PtrQuery(serviceType: Label): Query<Label>
  {
    Query(serviceType, PTR, IN)
  }

  function ServiceQueries(ss: seq<ServiceInfo<Label>>): seq<Query<Label>>
  {
    if ss == [] then [] else ServiceQueries(ss[..|ss| - 1]) + [PtrQuery(ss[|ss| - 1].serviceType)]
  }

  function TargetQueries(targets: seq<Target>, ip: LocalIp): seq<Query<Label>>
  {
    if targets == [] then []
    else
      var t := targets[|targets| - 1];
      TargetQueries(targets[..|targets| - 1], ip) + if t.localIp == ip then [PtrQuery(t.serviceType)] else []
  }

  function Asking(st: State, ip: LocalIp): Message<Label>
  {
    Request(st.nextTxid, STANDARD_REQUEST, ServiceQueries(On(st.services, ip)) + TargetQueries(st.targets, ip))
  }

  /** Both indices name an interface of their cycle. */
  predicate InRange(st: State)
  {
    && (st.localIps == [] ==> st.services == [] && st.advertiseIdx == 0 && st.queryIdx == 0)
    && (st.localIps != [] ==> st.advertiseIdx < |st.localIps| && st.queryIdx < |st.localIps|)
  }

  function OnTimeout(st: State, now: nat): (r: (State, Out))
    requires InRange(st)
    ensures InRange(r.0)
  {
    var s := st.(lastNow := now);
    if AdvertiseDue(st, now) then
      var ip := st.localIps[st.advertiseIdx];
      var last := st.advertiseIdx + 1 == |st.localIps|;
      (s.(advertiseIdx := if last then 0 else st.advertiseIdx + 1,
          nextAdvertise := if last then After(now, ADVERTISE_INTERVAL) else st.nextAdvertise),
       Send(Advertisement(st.services, ip), Multi(ip.addr)))
    else if QueryDue(st, now) then
      var ip := st.localIps[st.queryIdx];
      var last := st.queryIdx + 1 == |st.localIps|;
      (s.(queryIdx := if last then 0 else st.queryIdx + 1,
          nextQuery := if last then After(now, QUERY_INTERVAL) else st.nextQuery,
          txidQuery := st.nextTxid,
          nextTxid := (st.nextTxid + 1) % 0x1_0000),
       Send(Asking(st, ip), Multi(ip.addr)))
    else (s, Wait(PollTimeout(s)))
  }

  // ---------------------------------------------------------------- packets

  predicate HasAnswer(xs: seq<Answer<Label>>, x: Answer<Label>)
  {
    exists i :: 0 <= i < |xs| && ViewAnswer(xs[i]) == ViewAnswer(x)
  }

  function AddAnswer(xs: seq<Answer<Label>>, x: Answer<Label>): seq<Answer<Label>>
  {
    if HasAnswer(xs, x) then xs else xs + [x]
  }

  /** The answers without those equal to an earlier one. */
  function Dedup(xs: seq<Answer<Label>>): seq<Answer<Label>>
  {
    if xs == [] then [] else AddAnswer(Dedup(xs[..|xs| - 1]), xs[|xs| - 1])
  }

  predicate Asks(q: Query<Label>, s: ServiceInfo<Label>, from: IpAddr)
  {
    q.qtype == PTR && Segs(q.name) == Segs(s.serviceType) && SameNetwork(s.ip, s.netmask, from)
  }

  /** The services a question asks for, as the sender can reach them. */
  function Asked(q: Query<Label>, ss: seq<ServiceInfo<Label>>, from: IpAddr): seq<ServiceInfo<Label>>
  {
    if ss == [] then []
    else
      var s := ss[|ss| - 1];
      Asked(q, ss[..|ss| - 1], from) + if Asks(q, s, from) then [s] else []
  }

  function AllAsked(qs: seq<Query<Label>>, ss: seq<ServiceInfo<Label>>, from: IpAddr): seq<ServiceInfo<Label>>
  {
    if qs == [] then [] else AllAsked(qs[..|qs| - 1], ss, from) + Asked(qs[|qs| - 1], ss, from)
  }

  function Answering(st: State, qs: seq<Query<Label>>, from: IpAddr): seq<Answer<Label>>
    requires qs != []
  {
    Dedup(AllAnswers(AllAsked(qs, st.services, from), qs[0].qclass))
  }

  /** The first interface in the sender's network. */
  function Facing(ips: seq<LocalIp>, from: IpAddr): Option<LocalIp>
  {
    if ips == [] then None
    else if SameNetwork(ips[0].addr, ips[0].mask, from) then Some(ips[0])
    else Facing(ips[1..], from)
  }

  function HandleRequest(st: State, req: Message<Label>, from: SocketAddr): Out
    requires req.Request?
  {
    if req.queries == [] || req.id == st.txidQuery then Wait(PollTimeout(st))
    else
      var answers := Answering(st, req.queries, from.ip);
      if answers == [] then Wait(PollTimeout(st))
      else
        var facing := Facing(st.localIps, from.ip);
        // `unwrap`: the model has no value for a panic; that it never happens is FacingFound.
        var sender := if facing.Some? then facing.value.addr else DEFAULT_ADDR;
        Send(Response(req.id, STANDARD_RESPONSE, req.queries, answers),
             if req.queries[0].qclass == IN then Uni(sender, from) else Multi(sender))
  }

  predicate Handled(s: ServiceInfo<Name>, ss: seq<ServiceInfo<Label>>, targets: seq<Target>)
  {
    (exists i :: 0 <= i < |ss| && s.serviceType == Segs(ss[i].serviceType)) ||
    (exists i :: 0 <= i < |targets| && s.serviceType == Segs(targets[i].serviceType))
  }

  predicate IsSelf(s: ServiceInfo<Name>, ss: seq<ServiceInfo<Label>>)
  {
    exists i :: 0 <= i < |ss| && s.instanceName == Segs(ss[i].instanceName) && s.ip == ss[i].ip && s.port == ss[i].port
  }

  predicate Matching(s: ServiceInfo<Name>, st: State)
  {
    Handled(s, st.services, st.targets) && !IsSelf(s, st.services)
  }

  /** The first service of the list that was asked for and is not the server's own. */
  function FirstMatching(ss: seq<ServiceInfo<Name>>, st: State): Option<ServiceInfo<Name>>
  {
    if ss == [] then None
    else if Matching(ss[0], st) then Some(ss[0])
    else FirstMatching(ss[1..], st)
  }

  function HandleResponse(st: State, answers: seq<Answer<Name>>): Out
  {
    match FirstMatching(Join(answers), st)
    case None => Wait(PollTimeout(st))
    case Some(s) => Found(s)
  }

  function OnPacket(st: State, data: seq<byte>, from: SocketAddr): Out
  {
    match ParseMessage(data, GROWING)
    case None => Wait(PollTimeout(st))
    case Some(p) =>
      if p.value.Request? then HandleRequest(st, p.value, from)
      else HandleResponse(st, ViewAnswers(p.value.answers))
  }

  // ---------------------------------------------------------------- labels of a server

  predicate BuiltService(s: ServiceInfo<Label>)
  {
    Built(s.serviceType) && Built(s.instanceName) && Built(s.hostname)
  }

  /** Targets are made from text, by `query`. */
  predicate TextTarget(t: Target)
  {
    var items := t.serviceType.items; |items| == 1 && items[0].Str? && LabelText(items[0].text)
  }

  predicate BuiltState(st: State)
  {
    (forall s :: s in st.services ==> BuiltService(s)) && (forall t :: t in st.targets ==> TextTarget(t))
  }
}

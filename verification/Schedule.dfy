/** When a server sends, exactly: told from the calls and timeouts of its run, in milliseconds. */
module Schedule {
  import opened Bytes
  import opened Names
  import opened Messages
  import opened Services
  import opened Servers
  import opened ServerInvariant
  import opened ServerRuns

  // ---------------------------------------------------------------- due times

  /** When the next advertisement is due: three seconds after the start, fifteen after the last cycle. */
  function AdvertiseAt(events: seq<Event>, states: seq<State>, i: nat): nat
    requires Running(events, states) && i <= |events|
  {
    if i == 0 then 3000
    else if Advertises(states[i - 1], events[i - 1]) && states[i].advertiseIdx == 0 then events[i - 1].now + 15000
    else AdvertiseAt(events, states, i - 1)
  }

  /** The moment of the last timeout. */
  function Clock(events: seq<Event>, i: nat): nat
    requires i <= |events|
  {
    if i == 0 then 0 else if events[i - 1].Tick? then events[i - 1].now else Clock(events, i - 1)
  }

  /**
   When the next question is due: five seconds after the start, nineteen after the last cycle, and at
   once after a call to `query`.
   */
  function AskAt(events: seq<Event>, states: seq<State>, i: nat): nat
    requires Running(events, states) && i <= |events|
  {
    if i == 0 then 5000
    else if events[i - 1].Ask? then Clock(events, i - 1)
    else if Questions(states[i - 1], events[i - 1]) && states[i].queryIdx == 0 then events[i - 1].now + 19000
    else AskAt(events, states, i - 1)
  }

  /** No timeout is so late that adding an interval leaves 64 bits. */
  predicate InTime(events: seq<Event>)
  {
    forall e :: e in events && e.Tick? ==> e.now + 19000 < 0xFFFF_FFFF_FFFF_FFFF
  }

  /** The clocks of a state that the run so far explains. */
  ghost predicate OnTime(ss: seq<ServiceInfo<Label>>, events: seq<Event>, states: seq<State>, i: nat)
    requires Running(events, states) && i <= |events|
  {
    var st := states[i];
    && InRange(st) && st.services == ss && st.lastNow == Clock(events, i)
    && (ss != [] ==> st.nextAdvertise == AdvertiseAt(events, states, i) && st.localIps != [])
    && (st.localIps != [] ==> st.nextQuery == AskAt(events, states, i))
  }

  lemma StepTimes(st: State, e: Event)
    requires InRange(st) && (e.Tick? ==> e.now + 19000 < 0xFFFF_FFFF_FFFF_FFFF)
    ensures var next := Step(st, e);
      && InRange(next) && next.services == st.services
      && next.lastNow == (if e.Tick? then e.now else st.lastNow)
      && next.nextAdvertise ==
         (if Advertises(st, e) && next.advertiseIdx == 0 then e.now + 15000 else st.nextAdvertise)
      && next.nextQuery ==
         (if e.Ask? then st.lastNow
          else if Questions(st, e) && next.queryIdx == 0 then e.now + 19000 else st.nextQuery)
      && (st.localIps != [] ==> next.localIps != [])
      && (next.localIps != [] ==> st.localIps != [] || e.Ask?)
  {
    hide Segs, SplitDots, Known, AllAnswers, On, ServiceQueries, TargetQueries;
  }

  lemma {:induction false} RunOnTime(ss: seq<ServiceInfo<Label>>, events: seq<Event>, states: seq<State>, i: nat)
    requires IsRun(ss, events, states) && InTime(events) && i <= |events|
    ensures OnTime(ss, events, states, i)
    decreases i
  {
    hide Step, BuiltService, Legal, ServiceIps, InRange, Advertises, Questions;
    if i == 0 {
      StartInRange(ss);
      StartIps(ss);
    } else {
      RunOnTime(ss, events, states, i - 1);
      assert states[i - 1 + 1] == Step(states[i - 1], events[i - 1]);
      assert events[i - 1] in events;
      StepTimes(states[i - 1], events[i - 1]);
    }
  }

  lemma StartIps(ss: seq<ServiceInfo<Label>>)
    ensures Start(ss).localIps == [] <==> ss == []
  {
    ServiceIpsAre(ss);
  }

  /** An advertisement is sent on a timeout if and only if there are services and it is due. */
  lemma AdvertisesExactly(ss: seq<ServiceInfo<Label>>, events: seq<Event>, states: seq<State>, i: nat)
    requires IsRun(ss, events, states) && InTime(events) && i < |events| && events[i].Tick?
    ensures Advertises(states[i], events[i]) <==> ss != [] && events[i].now >= AdvertiseAt(events, states, i)
  {
    hide Step, BuiltService, Legal, ServiceIps, InRange, Advertises, Questions, AdvertiseAt, AskAt, Clock;
    RunOnTime(ss, events, states, i);
    SentIs(states[i], events[i]);
  }

  /**
   A question is sent on a timeout if and only if there is an interface to ask on, it is due, and no
   advertisement is.
   */
  lemma AsksExactly(ss: seq<ServiceInfo<Label>>, events: seq<Event>, states: seq<State>, i: nat)
    requires IsRun(ss, events, states) && InTime(events) && i < |events| && events[i].Tick?
    ensures Questions(states[i], events[i]) <==>
            && states[i].localIps != [] && events[i].now >= AskAt(events, states, i)
            && !(ss != [] && events[i].now >= AdvertiseAt(events, states, i))
  {
    hide Step, BuiltService, Legal, ServiceIps, InRange, Advertises, Questions, AdvertiseAt, AskAt, Clock;
    RunOnTime(ss, events, states, i);
    SentIs(states[i], events[i]);
  }

  /**
   Past the last fifteen seconds of 64 bits the addition wraps: the packet that ends a cycle leaves the
   next one due at once, so the same moment sends again, without end.
   */
  lemma TimeWraps(st: State, now: nat)
    requires InRange(st) && AdvertiseDue(st, now) && st.advertiseIdx + 1 == |st.localIps|
    requires now < 0x1_0000_0000_0000_0000 <= now + 15000
    ensures var next := OnTimeout(st, now).0;
      AdvertiseDue(next, now) && OnTimeout(next, now).1.Send? && OnTimeout(next, now).1.message.Response?
  {
    hide AllAnswers, On;
  }

  // ---------------------------------------------------------------- transaction ids

  /** The questions sent so far. */
  function Asks(events: seq<Event>, states: seq<State>, i: nat): nat
    requires Running(events, states) && i <= |events|
  {
    if i == 0 then 0
    else Asks(events, states, i - 1) + if Questions(states[i - 1], events[i - 1]) then 1 else 0
  }

  lemma StepIds(st: State, e: Event)
    requires InRange(st)
    ensures var next := Step(st, e);
      if Questions(st, e) then
        && next.txidQuery == st.nextTxid && next.nextTxid == (st.nextTxid + 1) % 65536
        && Sent(st, e).value.out.message.id == st.nextTxid
      else next.txidQuery == st.txidQuery && next.nextTxid == st.nextTxid
  {
    hide Segs, SplitDots, Known, AllAnswers, On, ServiceQueries, TargetQueries;
  }

  lemma NextId(n: nat)
    ensures ((n + 1) % 65536 + 1) % 65536 == (n + 2) % 65536
  {
  }

  /** In every run the questions are numbered from 1, in 16 bits, and the last number is remembered. */
  lemma {:induction false} IdsExactly(ss: seq<ServiceInfo<Label>>, events: seq<Event>, states: seq<State>, i: nat)
    requires IsRun(ss, events, states) && i <= |events|
    ensures var st, n := states[i], Asks(events, states, i);
      && st.nextTxid == (n + 1) % 65536 && st.txidQuery == n % 65536
      && (i < |events| && Questions(st, events[i]) ==>
            Sent(st, events[i]).value.out.message.id == (n + 1) % 65536)
    decreases i
  {
    hide Step, BuiltService, Legal, ServiceIps, InRange, Questions, Sent;
    if i > 0 {
      IdsExactly(ss, events, states, i - 1);
      assert states[i - 1 + 1] == Step(states[i - 1], events[i - 1]);
      StepIds(states[i - 1], events[i - 1]);
      NextId(Asks(events, states, i - 1));
    }
    if i < |events| {
      StepIds(states[i], events[i]);
    }
  }

  // ---------------------------------------------------------------- waking up

  /** A timeout at this moment sends a packet. */
  predicate SendsAt(st: State, t: nat)
    requires InRange(st)
  {
    OnTimeout(st, t).1.Send?
  }

  /** The moment a server asks to be woken is the least one at which a timeout sends something. */
  lemma PollIsLeast(st: State, t: nat)
    requires Inv(st) && t < FOREVER
    ensures SendsAt(st, t) <==> t >= PollTimeout(st)
  {
    hide AllAnswers, On, ServiceQueries, TargetQueries, ExactIps, DistinctTargets, BuiltState;
  }

  /** So after a timeout that sends nothing, the moment it gives is later, and the next to send at. */
  lemma WaitExactly(st: State, now: nat, t: nat)
    requires Inv(st) && OnTimeout(st, now).1.Wait? && now <= t < FOREVER
    ensures var (next, out) := OnTimeout(st, now);
      && now < out.until
      && (SendsAt(next, t) <==> t >= out.until)
  {
    hide AllAnswers, On, ServiceQueries, TargetQueries, ExactIps, DistinctTargets, BuiltState;
    TimeoutInv(st, now);
    PollIsLeast(OnTimeout(st, now).0, t);
  }

  // ---------------------------------------------------------------- calls to query

  /**
   A call to `query`, exactly: the interface and the target are there afterwards, the target at the
   end if it was not there before (the empty text never is), and all others stay; and the question is
   due at the last timeout, so that the next one sends it, unless it has an advertisement to send.
   */
  lemma QueriedExactly(st: State, serviceType: seq<byte>, ip: LocalIp, now: nat)
    requires Inv(st) && LabelText(serviceType) && now >= st.lastNow
    ensures var q := Queried(st, serviceType, ip);
      && q.localIps == (if ip in st.localIps then st.localIps else st.localIps + [ip])
      && q.targets == (if HasTarget(st, serviceType, ip) then st.targets
                       else st.targets + [Target(Label([Str(serviceType)]), ip)])
      && q == st.(localIps := q.localIps, targets := q.targets, nextQuery := st.lastNow)
      && OnTimeout(q, now).1.Send?
      && (st.services == [] || now < st.nextAdvertise ==> OnTimeout(q, now).1.message.Request?)
  {
    hide Segs, StrSegs, AllAnswers, On, ServiceQueries, TargetQueries, ExactIps, DistinctTargets, TextTarget,
      SplitDots, BuiltService;
    SplitAgrees(serviceType);
    if serviceType == [] {
      forall i | 0 <= i < |st.targets|
        ensures Segs(st.targets[i].serviceType) != SplitDots(serviceType)
      {
        assert st.targets[i] in st.targets;
        EmptyIsNew(st.targets[i]);
      }
    } else if HasTarget(st, serviceType, ip) {
      var t :| t in st.targets && t.localIp == ip && Segs(t.serviceType) == StrSegs(serviceType);
      var i :| 0 <= i < |st.targets| && st.targets[i] == t;
      assert st.targets[i].localIp == ip && Segs(st.targets[i].serviceType) == SplitDots(serviceType);
    }
  }

  /** No target is equal to the empty text, not even one made from it. */
  lemma EmptyIsNew(t: Target)
    requires TextTarget(t)
    ensures Segs(t.serviceType) != SplitDots([])
  {
    var s := t.serviceType.items[0].text;
    OnePart(s);
    assert t.serviceType == Label([Str(s)]);
    if s != [] {
      SplitAgrees(s);
      assert StrSegs(s)[1..] == StrSegs(AfterDot(s));
    }
  }

  /** The server asks for this type on this interface. */
  ghost predicate HasTarget(st: State, serviceType: seq<byte>, ip: LocalIp)
  {
    serviceType != [] && exists t :: t in st.targets && t.localIp == ip && Segs(t.serviceType) == StrSegs(serviceType)
  }
}

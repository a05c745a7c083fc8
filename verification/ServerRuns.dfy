/** Whole runs of a server: draining, complete cycles, and how often it sends. */
module ServerRuns {
  import opened Bytes
  import opened Names
  import opened Messages
  import opened Services
  import opened Servers
  import opened ServerInvariant

  // ---------------------------------------------------------------- draining

  function Ticked(st: State, now: nat, k: nat): State
    requires InRange(st)
    decreases k
  {
    if k == 0 then st else Ticked(OnTimeout(st, now).0, now, k - 1)
  }

  /** The outputs of `k` timeouts at the same moment. */
  function Outs(st: State, now: nat, k: nat): seq<Out>
    requires InRange(st)
    decreases k
  {
    if k == 0 then [] else [OnTimeout(st, now).1] + Outs(OnTimeout(st, now).0, now, k - 1)
  }

  lemma {:induction false} OutsSplit(st: State, now: nat, j: nat, k: nat)
    requires InRange(st)
    ensures InRange(Ticked(st, now, j))
    ensures Outs(st, now, j + k) == Outs(st, now, j) + Outs(Ticked(st, now, j), now, k)
    ensures Ticked(st, now, j + k) == Ticked(Ticked(st, now, j), now, k)
    decreases j
  {
    hide OnTimeout;
    if j > 0 {
      var next := OnTimeout(st, now);
      OutsSplit(next.0, now, j - 1, k);
      Assoc([next.1], Outs(next.0, now, j - 1), Outs(Ticked(next.0, now, j - 1), now, k));
    }
  }

  function AdvertiseRound(ss: seq<ServiceInfo<Label>>, ips: seq<LocalIp>): seq<Out>
  {
    if ips == [] then []
    else [Send(Advertisement(ss, ips[0]), Multi(ips[0].addr))] + AdvertiseRound(ss, ips[1..])
  }

  function NextTxid(st: State): State
  {
    st.(nextTxid := (st.nextTxid + 1) % 0x1_0000)
  }

  function QueryRound(st: State, ips: seq<LocalIp>): seq<Out>
    decreases |ips|
  {
    if ips == [] then []
    else [Send(Asking(st, ips[0]), Multi(ips[0].addr))] + QueryRound(NextTxid(st), ips[1..])
  }

  /** The question list does not depend on the clocks. */
  predicate SameQuestions(a: State, b: State)
  {
    a.services == b.services && a.targets == b.targets && a.nextTxid == b.nextTxid
  }

  lemma {:induction false} RoundSame(a: State, b: State, ips: seq<LocalIp>)
    requires SameQuestions(a, b)
    ensures QueryRound(a, ips) == QueryRound(b, ips)
    decreases |ips|
  {
    hide Asking;
    if ips != [] {
      assert Asking(a, ips[0]) == Asking(b, ips[0]) by {
        AskingSame(a, b, ips[0]);
      }
      RoundSame(NextTxid(a), NextTxid(b), ips[1..]);
    }
  }

  lemma AskingSame(a: State, b: State, ip: LocalIp)
    requires SameQuestions(a, b)
    ensures Asking(a, ip) == Asking(b, ip)
  {
  }

  function AdvertiseLeft(st: State, now: nat): nat
    requires InRange(st)
  {
    if AdvertiseDue(st, now) then |st.localIps| - st.advertiseIdx else 0
  }

  function QueryLeft(st: State, now: nat): nat
    requires InRange(st)
  {
    if QueryDue(st, now) then |st.localIps| - st.queryIdx else 0
  }

  /** The unchecked addition of an interval stays in range. */
  predicate Headroom(now: nat)
  {
    now + QUERY_INTERVAL < FOREVER
  }

  lemma {:induction false} AdvertiseDrain(st: State, now: nat)
    requires InRange(st) && Headroom(now) && AdvertiseDue(st, now)
    ensures var k := |st.localIps| - st.advertiseIdx;
      && Outs(st, now, k) == AdvertiseRound(st.services, st.localIps[st.advertiseIdx..])
      && Ticked(st, now, k) == st.(lastNow := now, advertiseIdx := 0, nextAdvertise := now + ADVERTISE_INTERVAL)
    decreases |st.localIps| - st.advertiseIdx
  {
    hide Advertisement, Asking;
    var next := OnTimeout(st, now).0;
    var ips := st.localIps[st.advertiseIdx..];
    assert ips[1..] == st.localIps[st.advertiseIdx + 1..];
    if st.advertiseIdx + 1 < |st.localIps| {
      AdvertiseDrain(next, now);
    } else {
      assert Outs(next, now, 0) == [] && ips[1..] == [];
      assert Ticked(st, now, 1) == Ticked(next, now, 0) == next;
    }
  }

  lemma {:induction false} QueryDrain(st: State, now: nat)
    requires InRange(st) && Headroom(now) && !AdvertiseDue(st, now) && QueryDue(st, now)
    ensures var k := |st.localIps| - st.queryIdx;
      && Outs(st, now, k) == QueryRound(st, st.localIps[st.queryIdx..])
      && InRange(Ticked(st, now, k))
      && var end := Ticked(st, now, k);
      && end.services == st.services && end.localIps == st.localIps && end.nextAdvertise == st.nextAdvertise
      && end.lastNow == now && end.queryIdx == 0 && end.nextQuery == now + QUERY_INTERVAL
    decreases |st.localIps| - st.queryIdx
  {
    hide Advertisement, Asking;
    var next := OnTimeout(st, now).0;
    var ips := st.localIps[st.queryIdx..];
    assert ips[1..] == st.localIps[st.queryIdx + 1..];
    if st.queryIdx + 1 < |st.localIps| {
      QueryDrain(next, now);
      RoundSame(next, NextTxid(st), ips[1..]);
    } else {
      assert Outs(next, now, 0) == [] && ips[1..] == [];
      assert QueryRound(NextTxid(st), ips[1..]) == [];
      assert Ticked(st, now, 1) == Ticked(next, now, 0) == next;
    }
  }

  /**
   Drain and progress: timeouts repeated at one moment send exactly one packet for each interface
   left in each due cycle, advertisements before questions, and then the server asks to be woken
   strictly later.
   */
  lemma Drain(st: State, now: nat)
    requires Inv(st) && Headroom(now)
    ensures var a, q := AdvertiseLeft(st, now), QueryLeft(st, now);
      && a + q <= 2 * |st.localIps|
      && Outs(st, now, a + q) ==
         (if a > 0 then AdvertiseRound(st.services, st.localIps[st.advertiseIdx..]) else [])
         + (if q > 0 then QueryRound(st, st.localIps[st.queryIdx..]) else [])
      && InRange(Ticked(st, now, a + q))
      && var last := OnTimeout(Ticked(st, now, a + q), now).1;
      && last.Wait? && last.until > now
  {
    hide Advertisement, Asking, BuiltService, Outs, Ticked, QueryRound, AdvertiseRound, ExactIps, DistinctTargets;
    var a, q := AdvertiseLeft(st, now), QueryLeft(st, now);
    NoTicks(st, now);
    var mid := st;
    if a > 0 {
      AdvertiseDrain(st, now);
      mid := st.(lastNow := now, advertiseIdx := 0, nextAdvertise := now + ADVERTISE_INTERVAL);
    }
    OutsSplit(st, now, a, q);
    assert mid == Ticked(st, now, a);
    if q > 0 {
      QueryDrain(mid, now);
      RoundSame(mid, st, st.localIps[st.queryIdx..]);
    }
    NoTicks(mid, now);
    DrainEnd(Ticked(mid, now, q), now);
  }

  lemma NoTicks(st: State, now: nat)
    requires InRange(st)
    ensures Outs(st, now, 0) == [] && Ticked(st, now, 0) == st
  {
  }

  /** A server with nothing due waits for a later moment. */
  lemma DrainEnd(st: State, now: nat)
    requires InRange(st) && Headroom(now) && !AdvertiseDue(st, now) && !QueryDue(st, now)
    requires st.localIps == [] ==> st.nextQuery == FOREVER
    ensures var last := OnTimeout(st, now).1; last.Wait? && last.until > now
  {
  }

  // ---------------------------------------------------------------- what a run sends

  /** The states of a run before each of its inputs can make a step. */
  predicate Running(events: seq<Event>, states: seq<State>)
  {
    |states| == |events| + 1 && forall j :: 0 <= j < |events| ==> InRange(states[j])
  }

  /** A packet sent on a timeout, and the state before. */
  datatype Emitted = Emitted(before: State, out: Out)

  /** The packet that an input makes the server send on its own account, if any. */
  function Sent(st: State, e: Event): Option<Emitted>
    requires InRange(st)
  {
    if e.Tick? && OnTimeout(st, e.now).1.Send? then Some(Emitted(st, OnTimeout(st, e.now).1)) else None
  }

  predicate Advertises(st: State, e: Event)
    requires InRange(st)
  {
    Sent(st, e).Some? && Sent(st, e).value.out.message.Response?
  }

  predicate Questions(st: State, e: Event)
    requires InRange(st)
  {
    Sent(st, e).Some? && Sent(st, e).value.out.message.Request?
  }

  lemma SentIs(st: State, e: Event)
    requires InRange(st)
    ensures Advertises(st, e) <==> e.Tick? && AdvertiseDue(st, e.now)
    ensures Questions(st, e) <==> e.Tick? && !AdvertiseDue(st, e.now) && QueryDue(st, e.now)
  {
    hide AllAnswers, On, ServiceQueries, TargetQueries;
  }

  datatype Mark = Advertised | AdvertiseCycle | QueryCycle | AskCall

  /** What is counted: advertisements, completed cycles, and calls that ask for a type. */
  predicate Marked(st: State, e: Event, mark: Mark)
    requires InRange(st)
  {
    match mark
    case Advertised => Advertises(st, e)
    case AdvertiseCycle => Advertises(st, e) && st.advertiseIdx + 1 == |st.localIps|
    case QueryCycle => Questions(st, e) && st.queryIdx + 1 == |st.localIps|
    case AskCall => e.Ask?
  }

  /** How often the mark was set before moment `i`. */
  function Count(states: seq<State>, events: seq<Event>, i: nat, mark: Mark): nat
    requires Running(events, states) && i <= |events|
  {
    if i == 0 then 0
    else Count(states, events, i - 1, mark) + if Marked(states[i - 1], events[i - 1], mark) then 1 else 0
  }

  /** No timeout of the run is later than `t`. */
  predicate Until(events: seq<Event>, t: nat)
  {
    Headroom(t) && forall e :: e in events && e.Tick? ==> e.now <= t
  }

  /** Time does not run backwards, and stays in range. */
  predicate Forward(states: seq<State>, events: seq<Event>)
    requires |states| == |events| + 1
  {
    forall i :: 0 <= i < |events| && events[i].Tick? ==> states[i].lastNow <= events[i].now && Headroom(events[i].now)
  }

  /** Where the advertising clock stands after `cycles` completed cycles and `sent` packets. */
  predicate AdvertiseClock(st: State, sent: nat, cycles: nat, t: nat)
  {
    && sent <= |st.localIps| * cycles + st.advertiseIdx
    && st.nextAdvertise >= 3000 + ADVERTISE_INTERVAL * cycles
    && (cycles > 0 ==> t >= 3000 + ADVERTISE_INTERVAL * (cycles - 1))
    && (st.advertiseIdx > 0 ==> t >= 3000 + ADVERTISE_INTERVAL * cycles)
  }

  lemma MulGrows(a: nat, b: nat, c: nat)
    requires a <= b
    ensures a * c <= b * c
  {
  }

  lemma StepClock(st: State, e: Event, sent: nat, cycles: nat, t: nat)
    requires InRange(st) && (st.services == [] ==> st.nextAdvertise == FOREVER)
    requires AdvertiseClock(st, sent, cycles, t) && Headroom(t) && (e.Tick? ==> e.now <= t)
    ensures AdvertiseClock(Step(st, e), sent + (if Marked(st, e, Advertised) then 1 else 0),
                           cycles + (if Marked(st, e, AdvertiseCycle) then 1 else 0), t)
  {
    hide Segs, SplitDots, Advertisement, Asking, Known, Advertises, Questions;
    SentIs(st, e);
    match e
    case Ask(_, ip) =>
      MulGrows(|st.localIps|, |AddIp(st.localIps, ip)|, cycles);
    case Tick(now) =>
      if AdvertiseDue(st, now) && st.advertiseIdx + 1 == |st.localIps| {
        assert |st.localIps| * (cycles + 1) == |st.localIps| * cycles + |st.localIps|;
      }
    case Packet(_, _) =>
  }

  lemma {:induction false} ClockHolds(ss: seq<ServiceInfo<Label>>, events: seq<Event>, states: seq<State>, i: nat,
                                      t: nat)
    requires IsRun(ss, events, states) && i <= |events| && Until(events, t)
    ensures AdvertiseClock(states[i], Count(states, events, i, Advertised), Count(states, events, i, AdvertiseCycle), t)
    decreases i
  {
    hide Step, BuiltService, Legal, InRange, ServiceIps, AdvertiseClock, Marked;
    if i == 0 {
      FirstClock(ss, t);
    } else {
      ClockHolds(ss, events, states, i - 1, t);
      ReachableInv(ss, events, states, i - 1);
      assert events[i - 1] in events;
      assert states[i - 1 + 1] == Step(states[i - 1], events[i - 1]);
      StepClock(states[i - 1], events[i - 1], Count(states, events, i - 1, Advertised),
                Count(states, events, i - 1, AdvertiseCycle), t);
    }
  }

  lemma FirstClock(ss: seq<ServiceInfo<Label>>, t: nat)
    ensures AdvertiseClock(Start(ss), 0, 0, t)
  {
  }

  /**
   Advertising rate over any run: none before three seconds, and by time `t` no more than one
   packet for each interface at once and one more every fifteen seconds.
   */
  lemma AdvertiseRate(ss: seq<ServiceInfo<Label>>, events: seq<Event>, states: seq<State>, i: nat, t: nat)
    requires IsRun(ss, events, states) && i <= |events| && Until(events, t)
    ensures var sent := Count(states, events, i, Advertised);
      if t < 3000 then sent == 0
      else sent <= |states[i].localIps| * (1 + (t - 3000) / ADVERTISE_INTERVAL)
  {
    hide Step, Marked, Count, Until;
    ReachableInv(ss, events, states, i);
    ClockHolds(ss, events, states, i, t);
    RateFromClock(states[i], Count(states, events, i, Advertised), Count(states, events, i, AdvertiseCycle), t);
  }

  lemma RateFromClock(st: State, sent: nat, cycles: nat, t: nat)
    requires AdvertiseClock(st, sent, cycles, t) && InRange(st)
    ensures if t < 3000 then sent == 0 else sent <= |st.localIps| * (1 + (t - 3000) / ADVERTISE_INTERVAL)
  {
    var n := |st.localIps|;
    if t < 3000 {
      assert cycles == 0;
    } else {
      var turns := if st.advertiseIdx > 0 then cycles + 1 else cycles;
      assert turns <= 1 + (t - 3000) / ADVERTISE_INTERVAL;
      assert n * (cycles + 1) == n * cycles + n;
      MulGrows(turns, 1 + (t - 3000) / ADVERTISE_INTERVAL, n);
      assert turns * n == n * turns;
    }
  }

  /** Where the question clock stands after `cycles` completed cycles and `asks` calls. */
  predicate QueryClock(st: State, cycles: nat, asks: nat)
  {
    && st.nextQuery >= 5000 + QUERY_INTERVAL * (cycles - asks)
    && st.lastNow >= 5000 + QUERY_INTERVAL * (cycles - 1 - asks)
  }

  lemma StepQueryClock(st: State, e: Event, cycles: nat, asks: nat)
    requires InRange(st) && QueryClock(st, cycles, asks)
    requires e.Tick? ==> st.lastNow <= e.now && Headroom(e.now)
    ensures QueryClock(Step(st, e), cycles + (if Marked(st, e, QueryCycle) then 1 else 0),
                       asks + (if Marked(st, e, AskCall) then 1 else 0))
  {
    hide Segs, SplitDots, Advertisement, Asking, Known, Advertises, Questions;
    SentIs(st, e);
  }

  lemma {:induction false} QueryClockHolds(ss: seq<ServiceInfo<Label>>, events: seq<Event>, states: seq<State>, i: nat)
    requires IsRun(ss, events, states) && i <= |events| && Forward(states, events)
    ensures QueryClock(states[i], Count(states, events, i, QueryCycle), Count(states, events, i, AskCall))
    decreases i
  {
    hide Step, BuiltService, Legal, InRange, ServiceIps, Marked;
    if i > 0 {
      QueryClockHolds(ss, events, states, i - 1);
      assert states[i - 1 + 1] == Step(states[i - 1], events[i - 1]);
      StepQueryClock(states[i - 1], events[i - 1], Count(states, events, i - 1, QueryCycle),
                     Count(states, events, i - 1, AskCall));
    }
  }

  /**
   Question rate over any run with time going forward: after `cycles` completed cycles and `asks`
   calls, no question is sent before 5000 + 19000 * (cycles - asks).
   */
  lemma QueryRate(ss: seq<ServiceInfo<Label>>, events: seq<Event>, states: seq<State>, i: nat)
    requires IsRun(ss, events, states) && i < |events| && Forward(states, events)
    requires Questions(states[i], events[i])
    ensures events[i].now >=
            5000 + QUERY_INTERVAL * (Count(states, events, i, QueryCycle) - Count(states, events, i, AskCall))
  {
    hide Step, Count, IsRun;
    QueryClockHolds(ss, events, states, i);
  }

  // ---------------------------------------------------------------- complete cycles

  /** The advertisements sent since the index last returned to the first interface. */
  function AdsOfCycle(events: seq<Event>, states: seq<State>, i: nat): seq<Emitted>
    requires Running(events, states) && i <= |events|
  {
    if i == 0 then []
    else
      var sent, log := Sent(states[i - 1], events[i - 1]), AdsOfCycle(events, states, i - 1);
      if sent.None? || sent.value.out.message.Request? then log
      else if states[i].advertiseIdx == 0 then []
      else log + [sent.value]
  }

  /** The questions sent since the index last returned to the first interface. */
  function QuestionsOfCycle(events: seq<Event>, states: seq<State>, i: nat): seq<Emitted>
    requires Running(events, states) && i <= |events|
  {
    if i == 0 then []
    else
      var sent, log := Sent(states[i - 1], events[i - 1]), QuestionsOfCycle(events, states, i - 1);
      if sent.None? || sent.value.out.message.Response? then log
      else if states[i].queryIdx == 0 then []
      else log + [sent.value]
  }

  /** One advertisement for each of the interfaces, in order: all its services, from its address. */
  predicate AdvertisesOn(log: seq<Emitted>, ss: seq<ServiceInfo<Label>>, ips: seq<LocalIp>)
  {
    |log| == |ips| &&
    forall k :: 0 <= k < |ips| ==> log[k].out == Send(Advertisement(ss, ips[k]), Multi(ips[k].addr))
  }

  /** One request from each of the interfaces, in order: all that the server asks there at that time. */
  predicate AsksFrom(log: seq<Emitted>, ips: seq<LocalIp>)
  {
    |log| == |ips| &&
    forall k :: 0 <= k < |ips| ==> log[k].out == Send(Asking(log[k].before, ips[k]), Multi(ips[k].addr))
  }

  lemma StepSends(st: State, e: Event)
    requires InRange(st)
    ensures InRange(Step(st, e)) && st.localIps <= Step(st, e).localIps && Step(st, e).services == st.services
    ensures Sent(st, e).Some? ==> Sent(st, e).value.before == st
    ensures var sent, ips := Sent(st, e), st.localIps;
      if sent.None? then Step(st, e).advertiseIdx == st.advertiseIdx && Step(st, e).queryIdx == st.queryIdx
      else if sent.value.out.message.Response? then
        && Step(st, e).queryIdx == st.queryIdx && st.advertiseIdx < |ips|
        && Step(st, e).advertiseIdx == (if st.advertiseIdx + 1 == |ips| then 0 else st.advertiseIdx + 1)
        && var ip := ips[st.advertiseIdx]; sent.value.out == Send(Advertisement(st.services, ip), Multi(ip.addr))
      else
        && Step(st, e).advertiseIdx == st.advertiseIdx && st.queryIdx < |ips|
        && Step(st, e).queryIdx == (if st.queryIdx + 1 == |ips| then 0 else st.queryIdx + 1)
        && var ip := ips[st.queryIdx]; sent.value.out == Send(Asking(st, ip), Multi(ip.addr))
  {
    hide Segs, SplitDots, Known, After, AllAnswers, On, ServiceQueries, TargetQueries;
  }

  lemma {:induction false} LogsCover(ss: seq<ServiceInfo<Label>>, events: seq<Event>, states: seq<State>, i: nat)
    requires IsRun(ss, events, states) && i <= |events|
    ensures var st := states[i];
      && InRange(st) && st.services == ss
      && AdvertisesOn(AdsOfCycle(events, states, i), ss, st.localIps[..st.advertiseIdx])
      && AsksFrom(QuestionsOfCycle(events, states, i), st.localIps[..st.queryIdx])
    decreases i
  {
    hide Step, BuiltService, Legal, ServiceIps, OnTimeout, Advertisement, Asking, Sent, AdvertisesOn, AsksFrom;
    if i == 0 {
      StartInRange(ss);
      NothingYet(ss);
      assert states[0].localIps[..0] == [];
    } else {
      var st, e := states[i - 1], events[i - 1];
      LogsCover(ss, events, states, i - 1);
      assert states[i - 1 + 1] == Step(st, e);
      StepSends(st, e);
      LogsMore(ss, AdsOfCycle(events, states, i - 1), Sent(st, e), st.localIps, states[i].localIps, st.advertiseIdx);
      LogsMore(ss, QuestionsOfCycle(events, states, i - 1), Sent(st, e), st.localIps, states[i].localIps, st.queryIdx);
      NothingYet(ss);
      assert states[i].localIps[..0] == [];
    }
  }

  lemma NothingYet(ss: seq<ServiceInfo<Label>>)
    ensures AdvertisesOn([], ss, []) && AsksFrom([], [])
  {
  }

  /** Interfaces are only added at the end, and a packet for the next one makes the log one longer. */
  lemma LogsMore(ss: seq<ServiceInfo<Label>>, log: seq<Emitted>, p: Option<Emitted>, before: seq<LocalIp>,
                 after: seq<LocalIp>, idx: nat)
    requires before <= after && idx <= |before|
    ensures AdvertisesOn(log, ss, before[..idx]) ==> AdvertisesOn(log, ss, after[..idx])
    ensures AsksFrom(log, before[..idx]) ==> AsksFrom(log, after[..idx])
    ensures p.Some? && idx < |before| && AdvertisesOn(log, ss, before[..idx])
            && p.value.out == Send(Advertisement(ss, before[idx]), Multi(before[idx].addr)) ==>
              AdvertisesOn(log + [p.value], ss, after[..idx + 1])
    ensures p.Some? && idx < |before| && AsksFrom(log, before[..idx])
            && p.value.out == Send(Asking(p.value.before, before[idx]), Multi(before[idx].addr)) ==>
              AsksFrom(log + [p.value], after[..idx + 1])
  {
    hide Advertisement, Asking;
    assert before[..idx] == after[..idx];
  }

  lemma StartInRange(ss: seq<ServiceInfo<Label>>)
    ensures InRange(Start(ss)) && Start(ss).services == ss
  {
    ServiceIpsAre(ss);
  }

  /**
   However calls and packets fall in between, the packets of a cycle are one for each interface
   below its index, in order; so when a packet ends a cycle, the cycle has sent one for each
   interface then present.
   */
  lemma CyclesCover(ss: seq<ServiceInfo<Label>>, events: seq<Event>, states: seq<State>, i: nat)
    requires IsRun(ss, events, states) && i < |events|
    ensures var st, sent := states[i], Sent(states[i], events[i]);
      var ads, asks := AdsOfCycle(events, states, i), QuestionsOfCycle(events, states, i);
      && AdvertisesOn(ads, ss, st.localIps[..st.advertiseIdx])
      && AsksFrom(asks, st.localIps[..st.queryIdx])
      && (sent.Some? && sent.value.out.message.Response? ==>
            (states[i + 1].advertiseIdx == 0 <==> AdvertisesOn(ads + [sent.value], ss, st.localIps)))
      && (sent.Some? && sent.value.out.message.Request? ==>
            (states[i + 1].queryIdx == 0 <==> AsksFrom(asks + [sent.value], st.localIps)))
  {
    hide Step, BuiltService, Legal, ServiceIps, OnTimeout, Advertisement, Asking, Sent, InRange;
    LogsCover(ss, events, states, i);
    StepSends(states[i], events[i]);
  }
}

/** The answer list of a response: no repeats, first occurrences in order, and nothing lost. */
module Deduplication {
  import opened Bytes
  import opened Names
  import opened Messages
  import opened Services
  import opened JoinTheory
  import opened Servers
  import opened ServerInvariant

  /** The first occurrences, in order. */
  function Firsts<T(==)>(xs: seq<T>): seq<T>
  {
    if xs == [] then []
    else
      var before, x := xs[..|xs| - 1], xs[|xs| - 1];
      Firsts(before) + if x in before then [] else [x]
  }

  lemma {:induction false} FirstsAre<T>(xs: seq<T>)
    ensures NoRepeats(Firsts(xs)) && forall x :: x in Firsts(xs) <==> x in xs
  {
    if xs != [] {
      LastSplit(xs);
      FirstsAre(xs[..|xs| - 1]);
    }
  }

  /** Of two entries of the list, the earlier one occurs before any occurrence of the later one. */
  lemma {:induction false} FirstsOrder<T>(xs: seq<T>, i: nat, j: nat)
    requires i < j < |Firsts(xs)|
    ensures exists a :: 0 <= a < |xs| && xs[a] == Firsts(xs)[i] && forall b :: 0 <= b <= a ==> xs[b] != Firsts(xs)[j]
  {
    var n := |xs| - 1;
    var before, x := xs[..n], xs[n];
    FirstsAre(before);
    FirstsAre(xs);
    if j < |Firsts(before)| {
      FirstsOrder(before, i, j);
      var a :| 0 <= a < n && before[a] == Firsts(before)[i]
               && forall b :: 0 <= b <= a ==> before[b] != Firsts(before)[j];
      assert xs[a] == before[a] && forall b :: 0 <= b <= a ==> xs[b] == before[b];
    } else {
      var f := Firsts(before)[i];
      FirstsHas(before, f);
      var a :| 0 <= a < n && before[a] == f;
      assert xs[a] == f;
      forall b | 0 <= b <= a
        ensures xs[b] != x
      {
        assert xs[b] == before[b] && before[b] in before;
      }
    }
  }

  lemma FirstsHas<T>(xs: seq<T>, x: T)
    ensures x in Firsts(xs) <==> x in xs
  {
    FirstsAre(xs);
  }

  lemma FirstsSnoc<T>(xs: seq<T>, x: T)
    ensures Firsts(xs + [x]) == Firsts(xs) + if x in xs then [] else [x]
  {
    LastOf(xs, x);
  }

  /** What has been listed stays in place. */
  lemma {:induction false} FirstsGrow<T>(xs: seq<T>, ys: seq<T>)
    ensures Firsts(xs) <= Firsts(xs + ys)
    ensures (forall y :: y in ys ==> y in xs) ==> Firsts(xs + ys) == Firsts(xs)
    decreases |ys|
  {
    if ys == [] {
      assert xs + ys == xs;
    } else {
      var n := |ys| - 1;
      LastSplit(ys);
      FirstsGrow(xs, ys[..n]);
      Assoc(xs, ys[..n], [ys[n]]);
      FirstsSnoc(xs + ys[..n], ys[n]);
    }
  }

  lemma ViewSnoc(xs: seq<Answer<Label>>, x: Answer<Label>)
    ensures ViewAnswers(xs + [x]) == ViewAnswers(xs) + [ViewAnswer(x)]
  {
    hide ViewAnswer;
    ViewAnswersAt(xs);
    ViewAnswersAt(xs + [x]);
  }

  lemma HasView(xs: seq<Answer<Label>>, x: Answer<Label>)
    ensures HasAnswer(xs, x) <==> ViewAnswer(x) in ViewAnswers(xs)
  {
    hide ViewAnswer;
    ViewAnswersAt(xs);
    var vs := ViewAnswers(xs);
    if ViewAnswer(x) in vs {
      var i :| 0 <= i < |vs| && vs[i] == ViewAnswer(x);
      assert ViewAnswer(xs[i]) == ViewAnswer(x);
    }
  }

  /** Comparing answers by `==` while collecting them lists the first occurrences of their meanings. */
  lemma {:induction false} DedupIsFirsts(xs: seq<Answer<Label>>)
    ensures ViewAnswers(Dedup(xs)) == Firsts(ViewAnswers(xs))
    ensures forall x :: x in Dedup(xs) ==> x in xs
  {
    hide ViewAnswer, HasAnswer, ViewAnswers;
    if xs == [] {
      NoViews();
    } else {
      var n := |xs| - 1;
      LastSplit(xs);
      DedupIsFirsts(xs[..n]);
      ViewSnoc(xs[..n], xs[n]);
      HasView(Dedup(xs[..n]), xs[n]);
      FirstsSnoc(ViewAnswers(xs[..n]), ViewAnswer(xs[n]));
      FirstsAre(ViewAnswers(xs[..n]));
      ViewSnoc(Dedup(xs[..n]), xs[n]);
      var vs, v := ViewAnswers(xs[..n]), ViewAnswer(xs[n]);
      assert ViewAnswers(xs) == vs + [v];
      assert Firsts(vs + [v]) == Firsts(vs) + if v in vs then [] else [v];
      assert HasAnswer(Dedup(xs[..n]), xs[n]) <==> v in vs;
      assert Dedup(xs) == AddAnswer(Dedup(xs[..n]), xs[n]);
      assert Firsts(vs) + [] == Firsts(vs);
    }
  }

  lemma NoViews()
    ensures ViewAnswers([]) == []
  {
  }

  lemma ViewFour(s: ServiceInfo<Label>, c: QClass)
    ensures ViewAnswers(AsAnswers(s, c)) == AsAnswers(ViewService(s), c)
  {
    hide ItemsSegs;
    ViewAnswersAt(AsAnswers(s, c));
  }

  lemma ViewConcat(xs: seq<Answer<Label>>, ys: seq<Answer<Label>>)
    ensures ViewAnswers(xs + ys) == ViewAnswers(xs) + ViewAnswers(ys)
  {
    hide ViewAnswer;
    ViewAnswersAt(xs);
    ViewAnswersAt(ys);
    ViewAnswersAt(xs + ys);
  }

  lemma {:induction false} ViewAll(ss: seq<ServiceInfo<Label>>, c: QClass)
    ensures ViewAnswers(AllAnswers(ss, c)) == AllAnswers(ViewServices(ss), c)
  {
    hide ViewAnswers, AsAnswers, ViewService;
    if ss == [] {
      NoViews();
    } else {
      var n := |ss| - 1;
      ViewAll(ss[..n], c);
      ViewFour(ss[n], c);
      ViewConcat(AllAnswers(ss[..n], c), AsAnswers(ss[n], c));
      assert ViewServices(ss)[..n] == ViewServices(ss[..n]);
    }
  }

  /** The meanings of the answers a request gets before repeats are dropped. */
  function Offered(st: State, qs: seq<Query<Label>>, from: IpAddr): seq<Answer<Name>>
    requires qs != []
  {
    AllAnswers(ViewServices(AllAsked(qs, st.services, from)), qs[0].qclass)
  }

  /** A service of the server, in the sender's network, of a type that some PTR question names. */
  ghost predicate Wanted(st: State, qs: seq<Query<Label>>, from: IpAddr, s: ServiceInfo<Label>)
  {
    s in st.services && exists q :: q in qs && Asks(q, s, from)
  }

  /** The answer announces a service that was asked for. */
  ghost predicate Announces(st: State, qs: seq<Query<Label>>, from: IpAddr, v: Answer<Name>)
    requires qs != []
  {
    exists s :: Wanted(st, qs, from, s) && Tells(v, ViewService(s), qs[0].qclass)
  }

  /**
   Deduplication is exact: the answers are the first occurrences of all that is offered, none is
   there twice, and an answer is there just when it announces a service that was asked for.
   */
  lemma AnsweringExact(st: State, qs: seq<Query<Label>>, from: IpAddr)
    requires qs != []
    ensures var views := ViewAnswers(Answering(st, qs, from));
      && views == Firsts(Offered(st, qs, from))
      && NoRepeats(views)
      && forall v :: v in views <==> Announces(st, qs, from, v)
  {
    hide ViewAnswers, AllAnswers, AllAsked, Asks, ViewService, Dedup, Firsts, Tells;
    var asked, c := AllAsked(qs, st.services, from), qs[0].qclass;
    DedupIsFirsts(AllAnswers(asked, c));
    ViewAll(asked, c);
    FirstsAre(Offered(st, qs, from));
    var offered, views := Offered(st, qs, from), ViewAnswers(Answering(st, qs, from));
    assert views == Firsts(offered);
    forall v
      ensures v in views <==> Announces(st, qs, from, v)
    {
      OfferedIs(st, qs, from, v);
      FirstsHas(offered, v);
    }
  }

  lemma OfferedIs(st: State, qs: seq<Query<Label>>, from: IpAddr, v: Answer<Name>)
    requires qs != []
    ensures v in Offered(st, qs, from) <==> Announces(st, qs, from, v)
  {
    hide AllAnswers, AllAsked, Asks, ViewService, Tells;
    var asked, c := AllAsked(qs, st.services, from), qs[0].qclass;
    AnyAnswer(ViewServices(asked), c, v);
    if v in Offered(st, qs, from) {
      var t :| t in ViewServices(asked) && Tells(v, t, c);
      var i :| 0 <= i < |asked| && ViewServices(asked)[i] == t;
      AllAskedReach(qs, st.services, from, asked[i]);
      assert Wanted(st, qs, from, asked[i]) && Tells(v, ViewService(asked[i]), c);
    }
    if Announces(st, qs, from, v) {
      var s :| Wanted(st, qs, from, s) && Tells(v, ViewService(s), c);
      AllAskedReach(qs, st.services, from, s);
      var i :| 0 <= i < |asked| && asked[i] == s;
      assert ViewServices(asked)[i] in ViewServices(asked);
    }
  }

  lemma {:induction false} AnyAnswer(ss: seq<ServiceInfo<Name>>, c: QClass, v: Answer<Name>)
    ensures v in AllAnswers(ss, c) <==> exists s :: s in ss && Tells(v, s, c)
  {
    hide Tells, AsAnswers;
    if ss != [] {
      var n := |ss| - 1;
      LastSplit(ss);
      AnyAnswer(ss[..n], c, v);
      TellsIs(ss[n], c);
    }
  }

  /** What is there already may be left out anywhere later. */
  lemma {:induction false} FirstsDrop<T>(xs: seq<T>, ys: seq<T>, zs: seq<T>)
    requires forall y :: y in ys ==> y in xs
    ensures Firsts(xs + ys + zs) == Firsts(xs + zs)
    decreases |zs|
  {
    hide Firsts;
    if zs == [] {
      assert xs + ys + zs == xs + ys && xs + zs == xs;
      FirstsGrow(xs, ys);
    } else {
      var n := |zs| - 1;
      LastSplit(zs);
      FirstsDrop(xs, ys, zs[..n]);
      Assoc(xs + ys, zs[..n], [zs[n]]);
      Assoc(xs, zs[..n], [zs[n]]);
      FirstsSnoc(xs + ys + zs[..n], zs[n]);
      FirstsSnoc(xs + zs[..n], zs[n]);
    }
  }

  /** Asking again what was asked already changes nothing, wherever it is asked again. */
  lemma AskingAgain(st: State, before: seq<Query<Label>>, q: Query<Label>, after: seq<Query<Label>>, from: IpAddr)
    requires exists p :: p in before && p.qtype == q.qtype && Segs(p.name) == Segs(q.name)
    ensures ViewAnswers(Answering(st, before + [q] + after, from)) == ViewAnswers(Answering(st, before + after, from))
  {
    hide ViewAnswers, AllAnswers, Dedup, Firsts, AllAsked, Asked, Announces, Answering, Offered, NoRepeats,
      ViewServices, ItemsSegs;
    var c, ss := before[0].qclass, st.services;
    var x, y, z := Told(st, before, from, c), Told(st, [q], from, c), Told(st, after, from, c);
    AnsweringExact(st, before + [q] + after, from);
    AnsweringExact(st, before + after, from);
    ToldConcat(st, before, [q], from, c);
    ToldConcat(st, before + [q], after, from, c);
    ToldConcat(st, before, after, from, c);
    forall v | v in y
      ensures v in x
    {
      ToldAgain(st, before, q, from, c, v);
    }
    FirstsDrop(x, y, z);
  }

  /** The answers that questions ask for, in one class. */
  function Told(st: State, qs: seq<Query<Label>>, from: IpAddr, c: QClass): seq<Answer<Name>>
  {
    AllAnswers(ViewServices(AllAsked(qs, st.services, from)), c)
  }

  lemma ToldConcat(st: State, a: seq<Query<Label>>, b: seq<Query<Label>>, from: IpAddr, c: QClass)
    ensures Told(st, a + b, from, c) == Told(st, a, from, c) + Told(st, b, from, c)
    ensures a + b != [] && (a + b)[0].qclass == c ==> Offered(st, a + b, from) == Told(st, a + b, from, c)
  {
    hide AllAnswers, AllAsked, ViewService;
    AskedConcat(a, b, st.services, from);
    var x, y := AllAsked(a, st.services, from), AllAsked(b, st.services, from);
    assert ViewServices(x + y) == ViewServices(x) + ViewServices(y);
    AllConcat(ViewServices(x), ViewServices(y), c);
  }

  lemma ToldAgain(st: State, qs: seq<Query<Label>>, q: Query<Label>, from: IpAddr, c: QClass, v: Answer<Name>)
    requires exists p :: p in qs && p.qtype == q.qtype && Segs(p.name) == Segs(q.name)
    requires v in Told(st, [q], from, c)
    ensures v in Told(st, qs, from, c)
  {
    hide AllAnswers, Asks, ViewService, AllAsked, Tells, ItemsSegs;
    var p :| p in qs && p.qtype == q.qtype && Segs(p.name) == Segs(q.name);
    var again, all := AllAsked([q], st.services, from), AllAsked(qs, st.services, from);
    AnyAnswer(ViewServices(again), c, v);
    var t :| t in ViewServices(again) && Tells(v, t, c);
    var i :| 0 <= i < |again| && ViewServices(again)[i] == t;
    AllAskedReach([q], st.services, from, again[i]);
    SameAsks(p, q, again[i], from);
    AllAskedReach(qs, st.services, from, again[i]);
    var j :| 0 <= j < |all| && all[j] == again[i];
    assert ViewServices(all)[j] in ViewServices(all);
    AnyAnswer(ViewServices(all), c, v);
  }

  lemma SameAsks(p: Query<Label>, q: Query<Label>, s: ServiceInfo<Label>, from: IpAddr)
    requires p.qtype == q.qtype && Segs(p.name) == Segs(q.name)
    ensures Asks(p, s, from) == Asks(q, s, from)
  {
  }

  /** A question is answered for the services in their order. */
  lemma {:induction false} AskedServices(q: Query<Label>, a: seq<ServiceInfo<Label>>, b: seq<ServiceInfo<Label>>,
                                         from: IpAddr)
    ensures Asked(q, a + b, from) == Asked(q, a, from) + Asked(q, b, from)
    decreases |b|
  {
    hide Asks;
    if b == [] {
      assert a + b == a;
    } else {
      var n := |b| - 1;
      LastSplit(b);
      AskedServices(q, a, b[..n], from);
      Assoc(a, b[..n], [b[n]]);
      LastOf(a + b[..n], b[n]);
    }
  }

  lemma {:induction false} AskedConcat(a: seq<Query<Label>>, b: seq<Query<Label>>, ss: seq<ServiceInfo<Label>>,
                                       from: IpAddr)
    ensures AllAsked(a + b, ss, from) == AllAsked(a, ss, from) + AllAsked(b, ss, from)
    decreases |b|
  {
    hide Asked;
    if b == [] {
      assert a + b == a;
    } else {
      var n := |b| - 1;
      LastSplit(b);
      AskedConcat(a, b[..n], ss, from);
      Assoc(a, b[..n], [b[n]]);
      LastOf(a + b[..n], b[n]);
      Assoc(AllAsked(a, ss, from), AllAsked(b[..n], ss, from), Asked(b[n], ss, from));
    }
  }

  lemma {:induction false} AllConcat<N>(a: seq<ServiceInfo<N>>, b: seq<ServiceInfo<N>>, c: QClass)
    ensures AllAnswers(a + b, c) == AllAnswers(a, c) + AllAnswers(b, c)
    decreases |b|
  {
    hide AsAnswers;
    if b == [] {
      assert a + b == a;
    } else {
      var n := |b| - 1;
      LastSplit(b);
      AllConcat(a, b[..n], c);
      Assoc(a, b[..n], [b[n]]);
      LastOf(a + b[..n], b[n]);
      Assoc(AllAnswers(a, c), AllAnswers(b[..n], c), AsAnswers(b[n], c));
    }
  }

  // ---------------------------------------------------------------- interfaces

  function IpsOf(ss: seq<ServiceInfo<Label>>): (r: seq<LocalIp>)
    ensures |r| == |ss| && forall i :: 0 <= i < |ss| ==> r[i] == LocalIp(ss[i].ip, ss[i].netmask)
  {
    seq(|ss|, i requires 0 <= i < |ss| => LocalIp(ss[i].ip, ss[i].netmask))
  }

  /** A server starts with the interfaces of its services, in order of their first service. */
  lemma {:induction false} StartInterfaces(ss: seq<ServiceInfo<Label>>)
    ensures Start(ss).localIps == Firsts(IpsOf(ss))
  {
    if ss != [] {
      var n := |ss| - 1;
      StartInterfaces(ss[..n]);
      assert IpsOf(ss)[..n] == IpsOf(ss[..n]);
      FirstsAre(IpsOf(ss[..n]));
    }
  }
}

/** Writing a name and reading it back: exactly when it works. */
module NameTrip {
  import opened Bytes
  import opened Names
  import opened Writers
  import opened LabelParser
  import opened LabelWriter
  import opened NameShape

  /**
   At offset `p` of the packet stands the name `segs`, ending before `q`: it takes `hops` pointers
   to read, and any budget that allows them gives this name, to the lenient reader and to the strict.
   */
  ghost predicate Reads(b: seq<byte>, p: nat, segs: Name, hops: nat, runs: nat, q: nat)
  {
    && p <= |b| && q <= |b|
    && (forall k: nat :: Decode(b[p..], b, k) == if k < hops then None else Some(Decoded(segs, b[q..], runs)))
    && (forall k: nat :: StrictDecode(b[p..], b, k) == if k < hops then None else Some(Named(segs, b[q..])))
  }

  lemma ReadsEnd(b: seq<byte>, p: nat)
    requires At(b, p, [0])
    ensures Reads(b, p, [], 0, 1, p + 1)
  {
    assert b[p..][0] == b[p..p + 1][0] && b[p..][1..] == b[p + 1..];
  }

  lemma ReadsPointer(b: seq<byte>, p: nat, off: nat, segs: Name, hops: nat, runs: nat, q: nat)
    requires At(b, p, PointerTo(off)) && off < 0x4000
    requires Reads(b, off, segs, hops, runs, q) && off + 2 <= |b| && b[off] < 0x40
    ensures Reads(b, p, segs, hops + 1, runs, p + 2)
  {
    hide Decode, StrictDecode;
    var input := b[p..];
    assert input[0] == b[p..p + 2][0] && input[1] == b[p..p + 2][1] && input[2..] == b[p + 2..];
    PointerIs(off);
    assert b[off..off + 2][0] == b[off];
    forall k: nat
      ensures Decode(input, b, k) == if k < hops + 1 then None else Some(Decoded(segs, b[p + 2..], runs))
      ensures StrictDecode(input, b, k) == if k < hops + 1 then None else Some(Named(segs, b[p + 2..]))
    {
      DecodePointer(input, b, k);
      StrictPointer(input, b, off, k);
      if k > 0 {
        assert Decode(b[off..], b, k - 1) == if k - 1 < hops then None else Some(Decoded(segs, b[q..], runs));
        assert StrictDecode(b[off..], b, k - 1) == if k - 1 < hops then None else Some(Named(segs, b[q..]));
      }
    }
  }

  /** The octets of a pointer: two ones, and fourteen bits of the offset. */
  lemma PointerIs(off: nat)
    requires off < 0x4000
    ensures var hi: int, lo: int := PointerTo(off)[0], PointerTo(off)[1];
      hi >= 192 && (hi - 192) * 256 + lo == off && PointerOffset(hi, lo) == off
  {
  }

  /** One step of the reference over a pointer that leads somewhere. */
  lemma DecodePointer(input: seq<byte>, ctx: seq<byte>, k: nat)
    requires IsPointer(input) && Leads(input, ctx)
    ensures k == 0 ==> Decode(input, ctx, k) == None
    ensures k > 0 ==>
              Decode(input, ctx, k) ==
              match Decode(ctx[PointerOffset(input[0], input[1])..], ctx, k - 1)
              case None => None
              case Some(d) => Some(Decoded(d.segs, input[2..], d.runs))
  {
    hide Decode, Leads;
    DecodeJump(input, ctx, k);
  }

  lemma StrictPointer(input: seq<byte>, ctx: seq<byte>, off: nat, k: nat)
    requires |input| >= 2 && input[0] >= 192 && off <= |ctx|
    requires var hi: int, lo: int := input[0], input[1]; (hi - 192) * 256 + lo == off
    ensures k == 0 ==> StrictDecode(input, ctx, k) == None
    ensures k > 0 ==>
              StrictDecode(input, ctx, k) ==
              match StrictDecode(ctx[off..], ctx, k - 1)
              case None => None
              case Some(d) => Some(Named(d.segs, input[2..]))
  {
  }

  lemma SegAt(b: seq<byte>, p: nat, seg: Seg)
    requires At(b, p, LenSeg(seg)) && 1 <= |seg| < 64
    ensures var n := 1 + |seg|;
      && b[p..][0] == |seg| && |b[p..]| >= n && b[p..][1..n] == seg && b[p..][n..] == b[p + n..]
  {
    var n := 1 + |seg|;
    assert b[p..][0] == b[p..p + n][0];
    assert b[p..][1..n] == b[p..p + n][1..] == seg;
  }

  /** One step of the references over a segment. */
  lemma DecodeSeg(b: seq<byte>, p: nat, seg: Seg, k: nat)
    requires At(b, p, LenSeg(seg)) && WireSeg(seg)
    ensures var q := p + 1 + |seg|;
      && Decode(b[p..], b, k) ==
      (match Decode(b[q..], b, k)
       case None => None
       case Some(d) => Some(Decoded([seg] + d.segs, d.rest, d.runs + if IsPointer(b[q..]) then 1 else 0)))
      && StrictDecode(b[p..], b, k) ==
      (match StrictDecode(b[q..], b, k)
       case None => None
       case Some(d) => Some(Named([seg] + d.segs, d.rest)))
  {
    hide LenSeg, Utf8;
    SegAt(b, p, seg);
  }

  /** Reading whole segments and then whatever stands after them. */
  lemma {:induction false} DecodeSegs(b: seq<byte>, p: nat, segs: Name, k: nat)
    requires At(b, p, Raw(segs)) && WireSegs(segs)
    ensures var q := p + |Raw(segs)|;
      && Decode(b[p..], b, k) ==
      (match Decode(b[q..], b, k)
       case None => None
       case Some(d) =>
         Some(Decoded(segs + d.segs, d.rest, d.runs + if segs != [] && IsPointer(b[q..]) then 1 else 0)))
      && StrictDecode(b[p..], b, k) ==
      (match StrictDecode(b[q..], b, k)
       case None => None
       case Some(d) => Some(Named(segs + d.segs, d.rest)))
    decreases |segs|
  {
    hide Decode, StrictDecode;
    var q := p + |Raw(segs)|;
    if segs == [] {
      assert forall n: Name :: [] + n == n;
    } else {
      var seg := segs[0];
      assert seg in segs;
      assert Raw(segs) == LenSeg(seg) + Raw(segs[1..]);
      AtSplit(b, p, LenSeg(seg), Raw(segs[1..]));
      var m := p + 1 + |seg|;
      DecodeSeg(b, p, seg, k);
      DecodeSegs(b, m, segs[1..], k);
      if segs[1..] != [] {
        NextIsSeg(b, m, segs[1..]);
      }
      assert segs == [seg] + segs[1..];
      var rest, strict := Decode(b[q..], b, k), StrictDecode(b[q..], b, k);
      if rest.Some? {
        Assoc([seg], segs[1..], rest.value.segs);
      }
      if strict.Some? {
        Assoc([seg], segs[1..], strict.value.segs);
      }
    }
  }

  lemma NextIsSeg(b: seq<byte>, p: nat, segs: Name)
    requires segs != [] && At(b, p, Raw(segs)) && WireSegs(segs)
    ensures !IsPointer(b[p..])
  {
    assert segs[0] in segs;
    assert b[p..][0] == b[p..p + |Raw(segs)|][0] == Raw(segs)[0] == |segs[0]|;
  }

  lemma ReadsSegs(b: seq<byte>, p: nat, full: Name, segs: Name, hops: nat, runs: nat, q: nat)
    requires At(b, p, Raw(full)) && WireSegs(full)
    requires Reads(b, p + |Raw(full)|, segs, hops, runs, q)
    ensures Reads(b, p, full + segs, hops, runs + if full != [] && IsPointer(b[p + |Raw(full)|..]) then 1 else 0, q)
  {
    hide Decode, StrictDecode, Raw;
    var m := p + |Raw(full)|;
    forall k: nat
      ensures Decode(b[p..], b, k) ==
              if k < hops then None
              else Some(Decoded(full + segs, b[q..], runs + if full != [] && IsPointer(b[m..]) then 1 else 0))
      ensures StrictDecode(b[p..], b, k) == if k < hops then None else Some(Named(full + segs, b[q..]))
    {
      DecodeSegs(b, p, full, k);
      assert Decode(b[m..], b, k) == if k < hops then None else Some(Decoded(segs, b[q..], runs));
      assert StrictDecode(b[m..], b, k) == if k < hops then None else Some(Named(segs, b[q..]));
    }
  }

  // ---------------------------------------------------------------- the table

  /**
   What a table entry promises: at its offset a segment starts, and from there on the packet reads
   as the name the entry denotes, of which its text is a prefix.
   */
  ghost predicate EntryOk(b: seq<byte>, e: Entry)
  {
    && e.off + 2 <= |b| && 1 <= b[e.off] < 0x40
    && WireSegs(e.segs) && NoDots(e.segs) && StrSegs(e.text) <= e.segs
    && exists q: nat :: EntryReads(b, e, q)
  }

  ghost predicate EntryReads(b: seq<byte>, e: Entry, q: nat)
  {
    Reads(b, e.off, e.segs, e.hops, e.hops + 1, q)
  }

  ghost predicate TableOk(b: seq<byte>, table: Table)
  {
    forall e :: e in table ==> EntryOk(b, e)
  }

  /** What the pointer of a written name leads to. */
  function Target(hit: Option<Entry>): Name
  {
    match hit case None => [] case Some(e) => e.segs
  }

  /** What a written name reads as: its segments in full, and then what its pointer leads to. */
  function Means(e: Emission): Name
  {
    e.full + Target(e.hit)
  }

  /** The pointer leads to a name that was there before, in reach. */
  predicate OldHit(hit: Option<Entry>, table: Table)
  {
    hit.Some? ==> hit.value in table && hit.value.off < 0x4000
  }

  /** The pointer can be written, its target was stored for this very name, and the budget lasts. */
  predicate GoodHit(hit: Option<Entry>)
  {
    match hit
    case None => true
    case Some(e) => e.off < 0x4000 && e.segs == StrSegs(e.text) && e.hops + 1 <= BUDGET
  }

  /**
   The names that survive the trip: every segment has 1 to 63 octets, and the suffix the table
   answers for, if any, denotes just that suffix. It depends on the names written before, through
   the table, but on no octet of the packet.
   */
  predicate GoodLabel(lab: Label, pos: nat, table: Table, limit: Option<nat>)
  {
    RunItems(lab.items) ||
    (WireSegs(Segs(lab)) && GoodHit(EmitItems(lab.items, pos, table, limit).hit))
  }

  /** The parts a parsed name takes. */
  function NameRuns(e: Emission): nat
  {
    match e.hit
    case None => 1
    case Some(hit) => hit.hops + if e.full == [] then 1 else 2
  }

  lemma {:induction false} ItemsText(items: seq<Part>)
    requires forall i :: 0 <= i < |items| ==> items[i].Str? && Utf8(items[i].text)
    ensures NoDots(ItemsSegs(items)) && forall seg :: seg in ItemsSegs(items) ==> Utf8(seg)
  {
    hide StrSegs, Utf8;
    if items != [] {
      StrSegsText(items[0].text);
      ItemsText(items[1..]);
    }
  }

  /** The end of a name, from the octet after its last full segment. */
  lemma EndingReads(b: seq<byte>, table: Table, m: nat, hit: Option<Entry>)
    requires TableOk(b, table) && At(b, m, Ending(true, hit)) && OldHit(hit, table)
    ensures Reads(b, m, Target(hit), Hops(hit), if hit.None? then 1 else Hops(hit), m + |Ending(true, hit)|)
    ensures IsPointer(b[m..]) <==> hit.Some?
  {
    hide Decode, StrictDecode, StrSegs, Reads;
    match hit
    case None =>
      ReadsEnd(b, m);
      assert b[m..][0] == b[m..m + 1][0];
    case Some(e) =>
      assert EntryOk(b, e);
      var q: nat :| EntryReads(b, e, q);
      ReadsPointer(b, m, e.off, e.segs, e.hops, e.hops + 1, q);
      assert b[m..][0] == b[m..m + 2][0];
  }

  /** What the table answers with is a whole name, and it starts as the text that was looked up. */
  lemma TargetWhole(b: seq<byte>, table: Table, hit: Option<Entry>)
    requires TableOk(b, table) && OldHit(hit, table)
    ensures WireSegs(Target(hit)) && NoDots(Target(hit)) && Pointed(hit) <= Target(hit)
  {
    hide StrSegs, EntryReads;
    if hit.Some? {
      assert EntryOk(b, hit.value);
    }
  }

  /** A written name reads from its own offset, and from that of every entry it stored. */
  lemma StrReads(b: seq<byte>, items: seq<Part>, p: nat, table: Table, limit: Option<nat>)
    requires StrItems(items) && TableOk(b, table) && WireSegs(ItemsSegs(items))
    requires var e := EmitItems(items, p, table, limit); At(b, p, e.bytes) && OldHit(e.hit, table)
    ensures var e := EmitItems(items, p, table, limit);
      && Reads(b, p, Means(e), Hops(e.hit), NameRuns(e), p + |e.bytes|)
      && WireSegs(Means(e)) && NoDots(Means(e))
      && forall x :: Own(x, p, e.full, ItemsSegs(items)) ==> EntryOk(b, Sealed(x, e.hit))
  {
    hide Decode, StrictDecode, StrSegs, Reads, EmitItems, ItemsSegs, Raw, Own, EntryOk, Sealed, TableOk, Target, OldHit;
    var e := EmitItems(items, p, table, limit);
    var m := p + |Raw(e.full)|;
    ItemsShape(items, p, table, limit);
    AtSplit(b, p, Raw(e.full), Ending(true, e.hit));
    EndingReads(b, table, m, e.hit);
    TargetWhole(b, table, e.hit);
    assert WireSegs(e.full);
    ReadsSegs(b, p, e.full, Target(e.hit), Hops(e.hit), if e.hit.None? then 1 else Hops(e.hit), p + |e.bytes|);
    ItemsText(items);
    forall x | Own(x, p, e.full, ItemsSegs(items))
      ensures EntryOk(b, Sealed(x, e.hit))
    {
      OwnReads(b, x, p, e.full, e.hit, p + |e.bytes|);
    }
  }

  lemma HitIsOld(items: seq<Part>, p: nat, table: Table, limit: Option<nat>)
    requires StrItems(items) && GoodHit(EmitItems(items, p, table, limit).hit)
    ensures var hit := EmitItems(items, p, table, limit).hit; hit.Some? ==> hit.value in table
  {
    hide EmitItems, ItemsSegs, StrSegs;
    ItemsHit(items, p, table, limit);
  }

  lemma SealedIs(x: Entry, k: nat, p: nat, full: Name, hit: Option<Entry>)
    requires OwnAt(x, k, p, full, full + Pointed(hit)) && Pointed(hit) <= Target(hit)
    ensures Sealed(x, hit).segs == full[k..] + Target(hit) && Sealed(x, hit).hops == Hops(hit)
    ensures StrSegs(x.text) <= full[k..] + Target(hit)
  {
    hide StrSegs, Raw;
    var rest := Pointed(hit);
    assert (full + rest)[k..] == full[k..] + rest;
    assert (full[k..] + rest)[..|full| - k] == full[k..];
    assert full[k..] + rest <= full[k..] + Target(hit);
  }

  lemma OwnReads(b: seq<byte>, x: Entry, p: nat, full: Name, hit: Option<Entry>, q: nat)
    requires Own(x, p, full, full + Pointed(hit)) && At(b, p, Raw(full))
    requires WireSegs(full) && NoDots(full)
    requires WireSegs(Target(hit)) && NoDots(Target(hit)) && Pointed(hit) <= Target(hit)
    requires var m := p + |Raw(full)|;
      && Reads(b, m, Target(hit), Hops(hit), if hit.Some? then Hops(hit) else 1, q)
      && (IsPointer(b[m..]) <==> hit.Some?) && m < |b|
    ensures EntryOk(b, Sealed(x, hit))
  {
    hide Decode, StrictDecode, StrSegs, Reads, Raw, Target, Sealed, WireSeg;
    var k: nat :| OwnAt(x, k, p, full, full + Pointed(hit));
    var before, after := full[..k], full[k..];
    assert full == before + after;
    RawConcat(before, after);
    AtSplit(b, p, Raw(before), Raw(after));
    SealedIs(x, k, p, full, hit);
    assert WireSegs(after) && NoDots(after) by {
      assert forall seg :: seg in after ==> seg in full;
    }
    ReadsSegs(b, x.off, after, Target(hit), Hops(hit), if hit.Some? then Hops(hit) else 1, q);
    var y := Sealed(x, hit);
    SealedKeeps(x, hit);
    assert EntryReads(b, y, q);
    FirstOctet(b, x.off, after);
  }

  /** An entry denotes what its name says when the pointer does. */
  lemma SealedSame(x: Entry, p: nat, full: Name, hit: Option<Entry>)
    requires Own(x, p, full, full + Pointed(hit)) && Target(hit) == Pointed(hit)
    ensures Sealed(x, hit) == x.(hops := Hops(hit))
  {
    hide StrSegs, Raw, Sealed;
    var k: nat :| OwnAt(x, k, p, full, full + Pointed(hit));
    SealedIs(x, k, p, full, hit);
    SealedKeeps(x, hit);
    assert (full + Pointed(hit))[k..] == full[k..] + Target(hit);
  }

  lemma SealedKeeps(x: Entry, hit: Option<Entry>)
    ensures Sealed(x, hit).off == x.off && Sealed(x, hit).text == x.text
  {
  }

  lemma FirstOctet(b: seq<byte>, p: nat, segs: Name)
    requires At(b, p, Raw(segs)) && WireSegs(segs) && segs != []
    ensures p + 2 <= |b| && 1 <= b[p] < 0x40
  {
    hide Raw, Utf8;
    var seg := segs[0];
    assert seg in segs && segs == [seg] + segs[1..];
    RawCons(seg, segs[1..]);
    AtSplit(b, p, LenSeg(seg), Raw(segs[1..]));
    assert b[p] == b[p..p + 1 + |seg|][0];
  }

  // ---------------------------------------------------------------- there and back

  /** A label made by the parser is written out whole, without pointers and without table entries. */
  lemma {:induction false} RunsShape(items: seq<Part>, pos: nat, table: Table, limit: Option<nat>)
    requires RunItems(items)
    ensures EmitItems(items, pos, table, limit) == Emission(Raw(Wire(items)) + [0], table, Wire(items), None)
    ensures WireSegs(Wire(items))
  {
    hide Raw, RunSegs, WholeRun, FlatSplit;
    var run, rest := items[0].run, items[1..];
    WholeRunSegs(run);
    var r := EmitItems(rest, pos + |run|, table, limit);
    assert EmitItems(items, pos, table, limit) == Then(Emission(run, table, RunSegs(run), None), r);
    if rest == [] {
      assert EndsWhole(run);
      assert RunSegs(run) + [] == RunSegs(run) && run + [] == run;
    } else {
      assert OpenWhole(run);
      assert RunItems(rest) by {
        forall i | 0 <= i < |rest|
          ensures rest[i].Run? && WholeRun(rest[i].run)
          ensures if i == |rest| - 1 then EndsWhole(rest[i].run) else OpenWhole(rest[i].run)
        {
          assert rest[i] == items[i + 1];
        }
      }
      RunsShape(rest, pos + |run|, table, limit);
      RawConcat(RunSegs(run), Wire(rest));
      Assoc(Raw(RunSegs(run)), Raw(Wire(rest)), [0]);
    }
  }

  lemma RunsRead(b: seq<byte>, items: seq<Part>, p: nat, table: Table, limit: Option<nat>)
    requires RunItems(items) && At(b, p, EmitItems(items, p, table, limit).bytes)
    ensures Reads(b, p, Wire(items), 0, 1, p + |EmitItems(items, p, table, limit).bytes|)
  {
    hide Raw, Wire, Reads, Decode, EmitItems, RunItems, WireSeg;
    RunsShape(items, p, table, limit);
    var m := p + |Raw(Wire(items))|;
    AtSplit(b, p, Raw(Wire(items)), [0]);
    ReadsEnd(b, m);
    assert b[m..][0] == b[m..m + 1][0];
    ReadsSegs(b, p, Wire(items), [], 0, 1, m + 1);
    assert Wire(items) + [] == Wire(items);
  }

  /** Where a name ends and what it reads as, and that the table stays true. */
  lemma LabelReads(b: seq<byte>, lab: Label, p: nat, table: Table, limit: Option<nat>)
    requires Proper(lab) && TableOk(b, table) && OldHit(EmitLabel(lab, p, table, limit).hit, table)
    requires At(b, p, EmitLabel(lab, p, table, limit).bytes)
    ensures var e := EmitLabel(lab, p, table, limit);
      && TableOk(b, e.table)
      && if RunItems(lab.items) then Reads(b, p, Wire(lab.items), 0, 1, p + |e.bytes|)
         else Reads(b, p, Means(e), Hops(e.hit), NameRuns(e), p + |e.bytes|) && NoDots(Means(e))
  {
    hide Decode, StrictDecode, StrSegs, Reads, EmitItems, ItemsSegs, Raw, Own, EntryOk, OldHit, Wire, Sealed, Target;
    var e := EmitItems(lab.items, p, table, limit);
    if RunItems(lab.items) {
      RunsRead(b, lab.items, p, table, limit);
      RunsShape(lab.items, p, table, limit);
      assert Seal(table, |table|, None) == table;
    } else {
      StrReads(b, lab.items, p, table, limit);
      ItemsKeep(lab.items, p, table, limit);
      var sealed := EmitLabel(lab, p, table, limit).table;
      forall x | x in sealed
        ensures EntryOk(b, x)
      {
        var i :| 0 <= i < |sealed| && sealed[i] == x;
        if i >= |table| {
          assert e.table[|table|..][i - |table|] == e.table[i];
          ItemsTable(lab.items, p, table, limit, e.table[i]);
        } else {
          assert table[i] == e.table[i];
        }
      }
    }
  }

  /**
   What a proper name reads as where it is written, as the names and the table decide it: nothing
   when its pointer leads into the name itself or takes too many more, and else its segments in
   full and what the pointer leads to.
   */
  function Reading(lab: Label, pos: nat, table: Table, limit: Option<nat>): Option<Name>
  {
    var e := EmitLabel(lab, pos, table, limit);
    if RunItems(lab.items) then Some(Segs(lab))
    else if e.hit.Some? && (e.hit.value !in table || Hops(e.hit) > BUDGET) then None
    else Some(Means(e))
  }

  /**
   Reading any proper name, exactly: with its pointer target in reach, the parser gives what the
   pointer really leads to, or fails, as `Reading` says, and the table stays true.
   */
  lemma LabelMeans(b: seq<byte>, lab: Label, p: nat, table: Table, limit: Option<nat>)
    requires Proper(lab) && TableOk(b, table) && At(b, p, EmitLabel(lab, p, table, limit).bytes)
    requires var hit := EmitLabel(lab, p, table, limit).hit; hit.Some? ==> hit.value.off < 0x4000
    ensures var e, r := EmitLabel(lab, p, table, limit), ParseLabel(b[p..], b, None);
      match Reading(lab, p, table, limit)
      case None => r == None
      case Some(n) => r.Some? && Segs(r.value.value) == n && r.value.rest == b[p + |e.bytes|..]
    ensures var e := EmitLabel(lab, p, table, limit);
      Reading(lab, p, table, limit).Some? ==>
        && TableOk(b, e.table)
        && RunItems(ParseLabel(b[p..], b, None).value.value.items)
        && |ParseLabel(b[p..], b, None).value.value.items| == if RunItems(lab.items) then 1 else NameRuns(e)
    ensures var e, n := EmitLabel(lab, p, table, limit), Reading(lab, p, table, limit);
      var strict := StrictDecode(b[p..], b, BUDGET);
      n.Some? ==>
        strict.Some? && FlatSplit(strict.value.segs) == n.value && strict.value.rest == b[p + |e.bytes|..]
  {
    hide Decode, StrictDecode, StrSegs, EmitItems, Seal, ItemsSegs, Wire, ParseLabel, FlatSplit, TableOk, Target, Reads;
    var e := EmitLabel(lab, p, table, limit);
    ParseIsDecode(b[p..], b);
    if RunItems(lab.items) {
      RunsShape(lab.items, p, table, limit);
      LabelReads(b, lab, p, table, limit);
      BudgetGives(b, p, Wire(lab.items), 0, 1, p + |e.bytes|);
      WireSplits(lab.items);
    } else if e.hit.Some? && e.hit.value !in table {
      OwnHitFails(b, lab.items, p, table, limit);
    } else {
      LabelReads(b, lab, p, table, limit);
      BudgetGives(b, p, Means(e), Hops(e.hit), NameRuns(e), p + |e.bytes|);
      FlatSplitNoDots(Means(e));
    }
  }

  lemma OwnHitFails(b: seq<byte>, items: seq<Part>, p: nat, table: Table, limit: Option<nat>)
    requires StrItems(items) && WireSegs(ItemsSegs(items)) && At(b, p, EmitItems(items, p, table, limit).bytes)
    requires var hit := EmitItems(items, p, table, limit).hit;
      hit.Some? && hit.value !in table && hit.value.off < 0x4000
    ensures p <= |b| && Decode(b[p..], b, BUDGET) == None
  {
    hide EmitItems, ItemsSegs, StrSegs, Raw, Decode, WireSegs, PointerTo, Own, At;
    var e, all := EmitItems(items, p, table, limit), ItemsSegs(items);
    ItemsShape(items, p, table, limit);
    ItemsHit(items, p, table, limit);
    AtSplit(b, p, Raw(e.full), PointerTo(e.hit.value.off));
    WirePrefix(e.full, Pointed(e.hit));
    OwnPointerFails(b, p, e.full, all, e.hit.value);
  }

  lemma WirePrefix(a: Name, b: Name)
    requires WireSegs(a + b)
    ensures WireSegs(a)
  {
    assert forall seg :: seg in a ==> seg in a + b;
  }

  lemma BudgetGives(b: seq<byte>, p: nat, segs: Name, hops: nat, runs: nat, q: nat)
    requires Reads(b, p, segs, hops, runs, q)
    ensures p <= |b| && q <= |b|
    ensures Decode(b[p..], b, BUDGET) == if BUDGET < hops then None else Some(Decoded(segs, b[q..], runs))
    ensures StrictDecode(b[p..], b, BUDGET) == if BUDGET < hops then None else Some(Named(segs, b[q..]))
  {
    hide Decode, StrictDecode;
  }

  /** A good name reads as itself. */
  lemma GoodReading(lab: Label, p: nat, table: Table, limit: Option<nat>)
    requires Built(lab) && GoodLabel(lab, p, table, limit)
    ensures Proper(lab) && Reading(lab, p, table, limit) == Some(Segs(lab))
    ensures !RunItems(lab.items) ==> OldHit(EmitLabel(lab, p, table, limit).hit, table)
  {
    hide EmitItems, ItemsSegs, StrSegs, Seal, RunItems, WireSeg;
    if !RunItems(lab.items) {
      ItemsShape(lab.items, p, table, limit);
      HitIsOld(lab.items, p, table, limit);
    }
  }

  /** A name that is well-formed for the trip comes back: same segments, nothing left unread. */
  lemma LabelReturns(b: seq<byte>, lab: Label, p: nat, table: Table, limit: Option<nat>)
    requires Built(lab) && TableOk(b, table) && GoodLabel(lab, p, table, limit)
    requires At(b, p, EmitLabel(lab, p, table, limit).bytes)
    ensures var e := EmitLabel(lab, p, table, limit);
      var r := ParseLabel(b[p..], b, None);
      && TableOk(b, e.table)
      && r.Some? && r.value.rest == b[p + |e.bytes|..]
      && Segs(r.value.value) == Segs(lab)
      && RunItems(r.value.value.items)
      && |r.value.value.items| == if RunItems(lab.items) then 1 else NameRuns(e)
  {
    hide EmitItems, Seal, ItemsSegs, ParseLabel, TableOk, Reading, NameRuns, WireSeg;
    GoodReading(lab, p, table, limit);
    if RunItems(lab.items) {
      RunsShape(lab.items, p, table, limit);
    }
    LabelMeans(b, lab, p, table, limit);
  }

  // Names that are not well-formed for the trip never come back.

  lemma LongSegmentLost(input: seq<byte>, ctx: seq<byte>, segs: Name)
    requires exists seg :: seg in segs && |seg| >= 64
    ensures var r := ParseLabel(input, ctx, None); r.Some? ==> Segs(r.value.value) != segs
  {
    ParseIsDecode(input, ctx);
    var r := ParseLabel(input, ctx, None);
    if r.Some? {
      RunsAreShort(r.value.value.items);
    }
  }

  lemma ZeroEnds(b: seq<byte>, p: nat, before: Name, rest: seq<byte>)
    requires At(b, p, Raw(before) + ([0] + rest)) && WireSegs(before)
    ensures Reads(b, p, before, 0, 1, p + |Raw(before)| + 1)
  {
    hide Decode, StrictDecode, Raw, Reads;
    var m := p + |Raw(before)|;
    AtSplit(b, p, Raw(before), [0] + rest);
    AtSplit(b, m, [0], rest);
    ReadsEnd(b, m);
    assert b[m..][0] == b[m..m + 1][0];
    ReadsSegs(b, p, before, [], 0, 1, m + 1);
    assert before + [] == before;
  }

  /** An empty segment writes the octet that ends a name. */
  lemma EmptySegmentLost(b: seq<byte>, p: nat, before: Name, rest: seq<byte>, segs: Name)
    requires At(b, p, Raw(before) + ([0] + rest)) && WireSegs(before) && NoDots(before) && |before| < |segs|
    ensures var r := ParseLabel(b[p..], b, None); r.Some? ==> Segs(r.value.value) != segs
  {
    hide Decode, StrictDecode, Raw, ParseLabel, Segs, FlatSplit, Reads, RunItems, Wire, At;
    ZeroEnds(b, p, before, rest);
    BudgetGives(b, p, before, 0, 1, p + |Raw(before)| + 1);
    ParseIsDecode(b[p..], b);
    FlatSplitNoDots(before);
  }

  /** A pointer back into the name it ends never stops. */
  lemma {:induction false} LoopFails(b: seq<byte>, off: nat, segs: Name, k: nat)
    requires At(b, off, Raw(segs)) && WireSegs(segs) && off < 0x4000
    requires At(b, off + |Raw(segs)|, PointerTo(off))
    ensures Decode(b[off + |Raw(segs)|..], b, k) == None
    decreases k
  {
    hide Decode, StrictDecode, Raw;
    var m := off + |Raw(segs)|;
    var input := b[m..];
    assert input[0] == b[m..m + 2][0] && input[1] == b[m..m + 2][1];
    assert PointerOffset(input[0], input[1]) == off && IsPointer(input);
    if Leads(input, b) {
      DecodePointer(input, b, k);
      if k > 0 {
        LoopFails(b, off, segs, k - 1);
        DecodeSegs(b, off, segs, k - 1);
      }
    } else {
      DecodeStuck(input, b, k);
    }
  }

  lemma DecodeStuck(input: seq<byte>, ctx: seq<byte>, k: nat)
    requires IsPointer(input) && !Leads(input, ctx)
    ensures Decode(input, ctx, k) == None
  {
    hide Decode, Leads;
    DecodeJump(input, ctx, k);
  }

  ghost predicate Lost(b: seq<byte>, p: nat, segs: Name)
    requires p <= |b|
  {
    var r := ParseLabel(b[p..], b, None); r.Some? ==> Segs(r.value.value) != segs
  }

  /** The first empty segment, all before it being fit for the wire. */
  lemma {:induction false} FirstEmpty(segs: Name) returns (j: nat)
    requires !WireSegs(segs) && forall seg :: seg in segs ==> Utf8(seg) && |seg| < 64
    ensures j < |segs| && segs[j] == [] && WireSegs(segs[..j])
  {
    hide Utf8;
    if segs[0] == [] {
      j := 0;
    } else {
      assert segs == [segs[0]] + segs[1..];
      assert segs[0] in segs;
      j := FirstEmpty(segs[1..]);
      j := j + 1;
      assert segs[..j] == [segs[0]] + segs[1..][..j - 1];
    }
  }

  /** No entry in the table answers for a suffix that holds the first empty segment. */
  lemma EmptyBeforePointer(b: seq<byte>, items: seq<Part>, p: nat, table: Table, limit: Option<nat>, j: nat)
    requires StrItems(items) && TableOk(b, table)
    requires var all := ItemsSegs(items); j < |all| && all[j] == [] && WireSegs(all[..j])
    ensures j < |EmitItems(items, p, table, limit).full|
  {
    hide EmitItems, ItemsSegs, StrSegs, Raw, Utf8, Reads, NoDots;
    var e, all := EmitItems(items, p, table, limit), ItemsSegs(items);
    ItemsShape(items, p, table, limit);
    ItemsHit(items, p, table, limit);
    var n := |e.full|;
    if j >= n {
      var x := e.hit.value;
      SuffixHas(all, n, j);
      if x in table {
        EntryWhole(b, x);
      } else {
        OwnHoldsEmpty(x, p, e.full, all, j);
      }
    }
  }

  lemma SuffixHas(all: Name, n: nat, j: nat)
    requires n <= j < |all|
    ensures all[j] in all[n..]
  {
    assert all[n..][j - n] == all[j];
  }

  lemma EntryWhole(b: seq<byte>, x: Entry)
    requires EntryOk(b, x)
    ensures [] !in StrSegs(x.text)
  {
    assert forall seg :: seg in StrSegs(x.text) ==> seg in x.segs;
  }

  lemma OwnHoldsEmpty(x: Entry, p: nat, full: Name, all: Name, j: nat)
    requires Own(x, p, full, all) && StrSegs(x.text) == all[|full|..] && |full| <= j < |all| && all[j] == []
    ensures !WireSegs(all[..j])
  {
    hide Raw, StrSegs;
    var k: nat :| OwnAt(x, k, p, full, all);
    var i := j - |full|;
    assert x.segs[i] == StrSegs(x.text)[i] == all[j];
    assert all[..j][k + i] == x.segs[i] && all[..j][k + i] in all[..j];
  }

  lemma EmptyLost(b: seq<byte>, items: seq<Part>, p: nat, table: Table, limit: Option<nat>, j: nat)
    requires StrItems(items) && TableOk(b, table) && At(b, p, EmitItems(items, p, table, limit).bytes)
    requires var all := ItemsSegs(items); j < |all| && all[j] == [] && WireSegs(all[..j])
    ensures Lost(b, p, ItemsSegs(items))
  {
    hide EmitItems, ItemsSegs, StrSegs, Raw, Utf8, TableOk, ParseLabel, Segs;
    var e, all := EmitItems(items, p, table, limit), ItemsSegs(items);
    EmptyBeforePointer(b, items, p, table, limit, j);
    ItemsShape(items, p, table, limit);
    ItemsText(items);
    var before, after := e.full[..j], e.full[j + 1..];
    assert before == all[..j];
    assert e.full == before + ([[]] + after);
    RawConcat(before, [[]] + after);
    RawCons([], after);
    assert LenSeg([]) + Raw(after) == [0] + Raw(after);
    var rest := Raw(after) + Ending(true, e.hit);
    assert e.bytes == Raw(before) + ([0] + rest);
    assert forall seg :: seg in before ==> seg in all;
    EmptySegmentLost(b, p, before, rest, all);
  }

  /** A pointer to an entry that denotes another name, or too many pointers. */
  lemma PointerLost(b: seq<byte>, items: seq<Part>, p: nat, table: Table, limit: Option<nat>)
    requires StrItems(items) && TableOk(b, table) && At(b, p, EmitItems(items, p, table, limit).bytes)
    requires WireSegs(ItemsSegs(items))
    requires var hit := EmitItems(items, p, table, limit).hit; !GoodHit(hit) && hit.value.off < 0x4000
    ensures Lost(b, p, ItemsSegs(items))
  {
    hide EmitItems, ItemsSegs, StrSegs, Seal, TableOk, ParseLabel, WireSeg;
    var e, all := EmitItems(items, p, table, limit), ItemsSegs(items);
    var x := e.hit.value;
    ItemsShape(items, p, table, limit);
    assert items[0].Str?;
    LabelMeans(b, Label(items), p, table, limit);
    if x in table && Hops(e.hit) <= BUDGET {
      assert (e.full + x.segs)[|e.full|..] == x.segs && all[|e.full|..] == StrSegs(x.text);
    }
  }

  lemma OwnPointerFails(b: seq<byte>, p: nat, full: Name, all: Name, x: Entry)
    requires Own(x, p, full, all) && x.off < 0x4000
    requires At(b, p, Raw(full)) && WireSegs(full) && At(b, p + |Raw(full)|, PointerTo(x.off))
    ensures p <= |b| && Decode(b[p..], b, BUDGET) == None
  {
    hide StrSegs, Raw, Decode, At, WireSegs, PointerTo;
    var k: nat :| OwnAt(x, k, p, full, all);
    Split2(full, k);
    LoopBack(b, p, full[..k], full[k..], full, x.off);
  }

  lemma Split2<T>(s: seq<T>, k: nat)
    requires k <= |s|
    ensures s == s[..k] + s[k..]
  {
  }

  lemma LoopBack(b: seq<byte>, p: nat, before: Name, after: Name, full: Name, off: nat)
    requires full == before + after && At(b, p, Raw(full)) && WireSegs(full)
    requires off == p + |Raw(before)| && off < 0x4000
    requires At(b, p + |Raw(full)|, PointerTo(off))
    ensures p <= |b| && Decode(b[p..], b, BUDGET) == None
  {
    hide Raw, WireSeg, Decode, PointerTo;
    LoopParts(b, p, before, after, full);
    LoopFails(b, off, after, BUDGET);
    DecodeSegs(b, p, full, BUDGET);
  }

  lemma LoopParts(b: seq<byte>, p: nat, before: Name, after: Name, full: Name)
    requires full == before + after && At(b, p, Raw(full)) && WireSegs(full)
    ensures At(b, p + |Raw(before)|, Raw(after)) && WireSegs(after)
    ensures |Raw(full)| == |Raw(before)| + |Raw(after)| && p + |Raw(full)| <= |b|
  {
    hide Raw, WireSeg;
    RawConcat(before, after);
    AtSplit(b, p, Raw(before), Raw(after));
    assert forall seg :: seg in after ==> seg in full;
  }

  /**
   The trip at one name, exactly: with every pointer target in reach, the name comes back if and
   only if it is well-formed for the trip.
   */
  lemma LabelTrip(b: seq<byte>, lab: Label, p: nat, table: Table, limit: Option<nat>)
    requires Built(lab) && TableOk(b, table)
    requires At(b, p, EmitLabel(lab, p, table, limit).bytes)
    requires var hit := EmitLabel(lab, p, table, limit).hit; hit.Some? ==> hit.value.off < 0x4000
    ensures GoodLabel(lab, p, table, limit) <==>
            (var r := ParseLabel(b[p..], b, None); r.Some? && Segs(r.value.value) == Segs(lab))
  {
    hide Decode, StrictDecode, StrSegs, EmitItems, Seal, ItemsSegs, Wire, ParseLabel, TableOk, Utf8, RunItems;
    if GoodLabel(lab, p, table, limit) {
      LabelReturns(b, lab, p, table, limit);
    } else {
      var all := ItemsSegs(lab.items);
      ItemsText(lab.items);
      if exists seg :: seg in all && |seg| >= 64 {
        LongSegmentLost(b[p..], b, all);
      } else if !WireSegs(all) {
        var j := FirstEmpty(all);
        EmptyLost(b, lab.items, p, table, limit, j);
      } else {
        PointerLost(b, lab.items, p, table, limit);
      }
    }
  }
}

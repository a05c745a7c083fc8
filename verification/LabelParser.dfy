/** Reading a name out of a packet, following compression pointers. */
module LabelParser {
  import opened Bytes
  import opened Names

  const BUDGET: nat := 4

  // ---------------------------------------------------------------- the reference

  /** `runs` counts the stretches of segments that one parsed part holds each. */
  datatype Decoded = Decoded(segs: Name, rest: seq<byte>, runs: nat)

  /**
   Decompression after section 4.1.4 of RFC 1035, segment by segment, with at most `budget`
   pointers, as lenient as the program is: any of the two top bits marks a pointer, and a pointer
   must lead to two octets of the packet that are not its own.
   */
  function Decode(input: seq<byte>, ctx: seq<byte>, budget: nat): Option<Decoded>
    decreases budget, |input|
  {
    if input == [] then None
    else if input[0] == 0 then Some(Decoded([], input[1..], 1))
    else if input[0] >= 64 then
      if |input| < 2 || budget == 0 then None
      else
        var hi: int := input[0];
        var lo: int := input[1];
        var off := hi % 64 * 256 + lo;
        if off + 2 > |ctx| || (ctx[off] == input[0] && ctx[off + 1] == input[1]) then None
        else
          match Decode(ctx[off..], ctx, budget - 1)
          case None => None
          case Some(d) => Some(Decoded(d.segs, input[2..], d.runs))
    else
      var n := 1 + input[0];
      if |input| < n || !Utf8(input[1..n]) then None
      else
        match Decode(input[n..], ctx, budget)
        case None => None
        case Some(d) =>
          Some(Decoded([input[1..n]] + d.segs, d.rest, d.runs + if IsPointer(input[n..]) then 1 else 0))
  }

  /** A name and the octets after it. */
  datatype Named = Named(segs: Name, rest: seq<byte>)

  /**
   Decompression as section 4.1.4 of RFC 1035 asks for it, which any other receiver may follow: a
   length is below 64, the two top bits of a pointer are ones, and 01 and 10 are reserved.
   */
  function StrictDecode(input: seq<byte>, ctx: seq<byte>, budget: nat): Option<Named>
    decreases budget, |input|
  {
    if input == [] then None
    else if input[0] == 0 then Some(Named([], input[1..]))
    else if input[0] >= 192 then
      if |input| < 2 || budget == 0 then None
      else
        var hi: int := input[0];
        var lo: int := input[1];
        var off := (hi - 192) * 256 + lo;
        if off > |ctx| then None
        else
          match StrictDecode(ctx[off..], ctx, budget - 1)
          case None => None
          case Some(d) => Some(Named(d.segs, input[2..]))
    else if input[0] >= 64 then None
    else
      var n := 1 + input[0];
      if |input| < n then None
      else
        match StrictDecode(input[n..], ctx, budget)
        case None => None
        case Some(d) => Some(Named([input[1..n]] + d.segs, d.rest))
  }

  // ---------------------------------------------------------------- the parser

  function PointerOffset(hi: int, lo: int): int
  {
    hi % 0x40 * 0x100 + lo
  }

  predicate IsPointer(input: seq<byte>)
  {
    input != [] && input[0] >= 0x40
  }

  /** The pointer at the head of `input` leads to two octets of the packet unlike its own. */
  predicate Leads(input: seq<byte>, ctx: seq<byte>)
  {
    |input| >= 2 &&
    var off := PointerOffset(input[0], input[1]);
    0 <= off && off + 2 <= |ctx| && ctx[off..off + 2] != input[..2]
  }

  lemma LeadsIs(input: seq<byte>, ctx: seq<byte>)
    requires IsPointer(input)
    ensures Leads(input, ctx) <==>
            |input| >= 2 &&
            var hi: int := input[0];
            var lo: int := input[1];
            var off := hi % 64 * 256 + lo;
            off + 2 <= |ctx| && !(ctx[off] == input[0] && ctx[off + 1] == input[1])
  {
    if |input| >= 2 {
      var hi: int := input[0];
      var lo: int := input[1];
      var off := hi % 64 * 256 + lo;
      if off + 2 <= |ctx| {
        assert ctx[off..off + 2] == [ctx[off], ctx[off + 1]] && input[..2] == [input[0], input[1]];
      }
    }
  }

  /** One step of the reference over a pointer. */
  lemma DecodeJump(input: seq<byte>, ctx: seq<byte>, budget: nat)
    requires IsPointer(input)
    ensures Decode(input, ctx, budget) ==
            if !Leads(input, ctx) || budget == 0 then None
            else
              match Decode(ctx[PointerOffset(input[0], input[1])..], ctx, budget - 1)
              case None => None
              case Some(d) => Some(Decoded(d.segs, input[2..], d.runs))
  {
    hide Leads;
    LeadsIs(input, ctx);
  }

  datatype Runs = Runs(items: seq<Part>, rest: seq<byte>)

  predicate Full(room: Option<nat>)
  {
    room == Some(0)
  }

  function Less(room: Option<nat>): Option<nat>
    requires !Full(room)
  {
    match room case None => None case Some(n) => Some(n - 1)
  }

  function Push(part: Part, r: Option<Runs>): Option<Runs>
  {
    match r case None => None case Some(runs) => Some(Runs([part] + runs.items, runs.rest))
  }

  /**
   The parts `do_parse` adds: `all[..end]` is the run being collected and `room` the parts that
   still fit in the list.
   */
  function ParseRuns(all: seq<byte>, end: nat, ctx: seq<byte>, budget: nat, room: Option<nat>): (r: Option<Runs>)
    requires end <= |all|
    ensures r.Some? ==> r.value.items != []
    decreases budget, |all| - end
  {
    var input := all[end..];
    if input == [] then None
    else if input[0] == 0 then
      if Full(room) then None else Some(Runs([Run(all[..end + 1], ctx)], input[1..]))
    else if IsPointer(input) then
      if end == 0 then Jump(input, ctx, budget, room)
      else if Full(room) then None
      else Push(Run(all[..end], ctx), Jump(input, ctx, budget, Less(room)))
    else
      var n := 1 + input[0];
      if |input| < n || !Utf8(input[1..n]) then None
      else ParseRuns(all, end + n, ctx, budget, room)
  }

  function Jump(input: seq<byte>, ctx: seq<byte>, budget: nat, room: Option<nat>): (r: Option<Runs>)
    requires IsPointer(input)
    ensures r.Some? ==> r.value.items != []
    decreases budget, 0
  {
    if !Leads(input, ctx) || budget == 0 then None
    else
      match ParseRuns(ctx[PointerOffset(input[0], input[1])..], 0, ctx, budget - 1, room)
      case None => None
      case Some(runs) => Some(Runs(runs.items, input[2..]))
  }

  function ParseLabel(input: seq<byte>, ctx: seq<byte>, llen: Option<nat>): Option<Parsed<Label>>
  {
    match ParseRuns(input, 0, ctx, BUDGET, llen)
    case None => None
    case Some(runs) => Some(Parsed(Label(runs.items), runs.rest))
  }

  /** `left` and `filled` are what parsing `r` on top of `into` amounts to. */
  predicate Fills(filled: seq<Part>, left: Option<seq<byte>>, into: seq<Part>, r: Option<Runs>)
  {
    match r
    case None => left == None
    case Some(runs) => left == Some(runs.rest) && filled == into + runs.items
  }

  function Room(llen: Option<nat>, used: nat): Option<nat>
    requires llen.Some? ==> used <= llen.value
  {
    if llen.Some? then Some(llen.value - used) else None
  }

  lemma SegStep(all: seq<byte>, end: nat, ctx: seq<byte>, budget: nat, room: Option<nat>)
    requires end < |all| && 0 < all[end] < 0x40
    ensures var len, next := all[end], all[end..][1..];
      ParseRuns(all, end, ctx, budget, room) ==
      if |next| < len || !Utf8(next[..len]) then None else ParseRuns(all, end + 1 + len, ctx, budget, room)
  {
    var len, input := all[end], all[end..];
    if |input| >= 1 + len {
      assert input[1..][..len] == input[1..1 + len];
    }
  }

  lemma JumpStep(all: seq<byte>, end: nat, ctx: seq<byte>, budget: nat, room: Option<nat>)
    requires end < |all| && all[end] >= 0x40 && !(end > 0 && Full(room))
    ensures var input := all[end..];
      if !Leads(input, ctx) || budget == 0 then ParseRuns(all, end, ctx, budget, room) == None
      else
        var target := ctx[PointerOffset(input[0], input[1])..];
        ParseRuns(all, end, ctx, budget, room) ==
        match ParseRuns(target, 0, ctx, budget - 1, if end > 0 then Less(room) else room)
        case None => None
        case Some(runs) => Some(Runs(Closed(all, end, ctx) + runs.items, input[2..]))
  {
    var input := all[end..];
    if end == 0 {
      assert ParseRuns(all, end, ctx, budget, room) == Jump(input, ctx, budget, room);
      assert forall items: seq<Part> :: [] + items == items;
    } else {
      assert ParseRuns(all, end, ctx, budget, room) == Push(Run(all[..end], ctx), Jump(input, ctx, budget, Less(room)));
    }
  }

  lemma NoRoom(all: seq<byte>, end: nat, ctx: seq<byte>, budget: nat)
    requires 0 < end < |all| && all[end] >= 0x40
    ensures ParseRuns(all, end, ctx, budget, Some(0)) == None
  {
    hide Jump, Utf8;
    var input := all[end..];
    assert IsPointer(input);
  }

  /** The part a pointer closes, if any segment came before it. */
  function Closed(all: seq<byte>, end: nat, ctx: seq<byte>): seq<Part>
    requires end <= |all|
  {
    if end > 0 then [Run(all[..end], ctx)] else []
  }

  /** `Label::do_parse`: fills `into`, and gives the input left over unless parsing failed. */
  method DoParse(input: seq<byte>, ctx: seq<byte>, into: seq<Part>, limit: nat, llen: Option<nat>)
    returns (filled: seq<Part>, left: Option<seq<byte>>)
    requires llen.Some? ==> |into| <= llen.value
    ensures Fills(filled, left, into, ParseRuns(input, 0, ctx, limit, Room(llen, |into|)))
    decreases limit
  {
    hide Utf8, Leads, PointerOffset, Jump;
    var rest, runEnd := input, 0;
    filled := into;
    while true
      invariant 0 <= runEnd <= |input| && rest == input[runEnd..]
      invariant filled == into
      invariant ParseRuns(input, 0, ctx, limit, Room(llen, |into|)) ==
                ParseRuns(input, runEnd, ctx, limit, Room(llen, |into|))
      decreases |input| - runEnd
    {
      if |rest| == 0 {
        return filled, None;
      }
      var len, next := rest[0], rest[1..];
      var isEnd, isPtr := len == 0, len >= 0x40;
      if isEnd {
        runEnd := runEnd + 1;
        if llen.Some? && |filled| >= llen.value {
          return filled, None;
        }
        return filled + [Run(input[..runEnd], ctx)], Some(next);
      }
      if isPtr {
        filled, left := FollowPointer(input, runEnd, ctx, into, limit, llen);
        return filled, left;
      }
      SegStep(input, runEnd, ctx, limit, Room(llen, |into|));
      if |next| < len || !Utf8(next[..len]) {
        return filled, None;
      }
      rest := next[len..];
      assert rest == input[runEnd + 1 + len..];
      runEnd := runEnd + 1 + len;
    }
  }

  /** The pointer branch of `do_parse`: `input[..runEnd]` is the run it closes. */
  method FollowPointer(input: seq<byte>, runEnd: nat, ctx: seq<byte>, into: seq<Part>, limit: nat, llen: Option<nat>)
    returns (filled: seq<Part>, left: Option<seq<byte>>)
    requires llen.Some? ==> |into| <= llen.value
    requires runEnd < |input| && input[runEnd] >= 0x40
    ensures Fills(filled, left, into, ParseRuns(input, runEnd, ctx, limit, Room(llen, |into|)))
    decreases limit, 0
  {
    hide Utf8, Decode, ParseRuns, Jump;
    filled := into;
    if runEnd > 0 {
      if llen.Some? && |filled| >= llen.value {
        NoRoom(input, runEnd, ctx, limit);
        return filled, None;
      }
      filled := filled + [Run(input[..runEnd], ctx)];
    }
    assert filled == into + Closed(input, runEnd, ctx);
    JumpStep(input, runEnd, ctx, limit, Room(llen, |into|));
    var rest := input[runEnd..];
    if |rest| < 2 {
      return filled, None;
    }
    var offset := PointerOffset(rest[0], rest[1]);
    if offset > |ctx| {
      return filled, None;
    }
    var pointered := ctx[offset..];
    if |pointered| < 2 || pointered[..2] == rest[..2] || limit == 0 {
      return filled, None;
    }
    filled, left := DoParse(pointered, ctx, filled, limit - 1, llen);
    if left.Some? {
      left := Some(rest[2..]);
    }
  }

  /** `Label::parse`. */
  method Parse(input: seq<byte>, ctx: seq<byte>, llen: Option<nat>) returns (r: Option<Parsed<Label>>)
    requires ctx != []
    ensures r == ParseLabel(input, ctx, llen)
  {
    var items, left := DoParse(input, ctx, [], 4, llen);
    match left
    case None => r := None;
    case Some(rest) =>
      assert forall more: seq<Part> :: [] + more == more;
      r := Some(Parsed(Label(items), rest));
  }

  // ---------------------------------------------------------------- parser and reference agree

  /** The wire segments of a parsed name. */
  function Wire(items: seq<Part>): Name
  {
    if items == [] then []
    else (match items[0] case Run(run, _) => RunSegs(run) case Str(_) => []) + Wire(items[1..])
  }

  lemma {:induction false} WireSplits(items: seq<Part>)
    requires forall i :: 0 <= i < |items| ==> items[i].Run?
    ensures ItemsSegs(items) == FlatSplit(Wire(items))
  {
    if items != [] {
      WireSplits(items[1..]);
      FlatSplitConcat(RunSegs(items[0].run), Wire(items[1..]));
    }
  }

  /** The parts hold the decoded segments in well-formed runs, as many as the reference counts. */
  ghost predicate Holds(r: Option<Runs>, before: Name, extra: nat, d: Option<Decoded>)
  {
    match (r, d)
    case (None, None) => true
    case (Some(runs), Some(dec)) =>
      && RunItems(runs.items)
      && Wire(runs.items) == before + dec.segs
      && runs.rest == dec.rest
      && |runs.items| == dec.runs + extra
    case _ => false
  }

  lemma PushOpen(run: seq<byte>, segs: Name, ctx: seq<byte>, items: seq<Part>)
    requires RunItems(items) && WireSegs(segs) && segs != [] && run == Raw(segs)
    ensures RunItems([Run(run, ctx)] + items)
    ensures Wire([Run(run, ctx)] + items) == segs + Wire(items)
  {
    RawIsWhole(segs, false);
    assert run + [] == run;
    var all := [Run(run, ctx)] + items;
    assert all[1..] == items;
    forall i | 0 <= i < |all|
      ensures all[i].Run? && WholeRun(all[i].run)
      ensures if i == |all| - 1 then EndsWhole(all[i].run) else OpenWhole(all[i].run)
    {
      if i > 0 {
        assert all[i] == items[i - 1];
      }
    }
  }

  lemma LastRun(run: seq<byte>, segs: Name, ctx: seq<byte>)
    requires WireSegs(segs) && run == Raw(segs) + [0]
    ensures RunItems([Run(run, ctx)]) && Wire([Run(run, ctx)]) == segs
  {
    RawIsWhole(segs, true);
    assert Wire([Run(run, ctx)]) == RunSegs(run) + Wire([]);
  }

  lemma RawSnoc(segs: Name, seg: Seg)
    requires |seg| < 0x100
    ensures Raw(segs + [seg]) == Raw(segs) + [|seg|] + seg
  {
    RawConcat(segs, [seg]);
    assert Raw([seg]) == [|seg|] + seg + Raw([]);
    assert Raw(segs) + ([|seg|] + seg) == Raw(segs) + [|seg|] + seg;
  }

  /**
   The parser agrees with the reference on every input: it fails on the same inputs, leaves the
   same octets, and the runs it keeps hold exactly the reference segments.
   */
  lemma {:induction false} RunsAreDecoded(all: seq<byte>, end: nat, ctx: seq<byte>, budget: nat, before: Name)
    requires end <= |all| && WireSegs(before) && all[..end] == Raw(before)
    ensures Holds(ParseRuns(all, end, ctx, budget, None), before,
                  if end > 0 && IsPointer(all[end..]) then 1 else 0, Decode(all[end..], ctx, budget))
    decreases budget, |all| - end
  {
    hide Wire, RunItems, Utf8, Raw, Leads;
    var input := all[end..];
    if input == [] {
    } else if input[0] == 0 {
      assert all[..end + 1] == Raw(before) + [0];
      LastRun(all[..end + 1], before, ctx);
      assert before + [] == before;
    } else if IsPointer(input) {
      JumpIsDecoded(all, end, ctx, budget, before);
    } else {
      var n := 1 + input[0];
      if |input| >= n && Utf8(input[1..n]) {
        SegIsDecoded(all, end, before);
        RunsAreDecoded(all, end + n, ctx, budget, before + [input[1..n]]);
        var d := Decode(input[n..], ctx, budget);
        if d.Some? {
          Assoc(before, [input[1..n]], d.value.segs);
        }
      }
    }
  }

  lemma SegIsDecoded(all: seq<byte>, end: nat, before: Name)
    requires end < |all| && 0 < all[end] < 0x40 && end + 1 + all[end] <= |all|
    requires all[..end] == Raw(before)
    ensures var n := 1 + all[end];
      && all[..end + n] == Raw(before + [all[end..][1..n]])
      && all[end..][n..] == all[end + n..]
  {
    hide Raw;
    var n, input := 1 + all[end], all[end..];
    var seg := input[1..n];
    RawSnoc(before, seg);
    assert all[..end + n] == all[..end] + [all[end]] + seg;
  }

  lemma {:induction false} JumpIsDecoded(all: seq<byte>, end: nat, ctx: seq<byte>, budget: nat, before: Name)
    requires end <= |all| && WireSegs(before) && all[..end] == Raw(before) && IsPointer(all[end..])
    ensures Holds(ParseRuns(all, end, ctx, budget, None), before, if end > 0 then 1 else 0,
                  Decode(all[end..], ctx, budget))
    decreases budget, 0
  {
    hide Decode, RunItems;
    var input := all[end..];
    assert input[0] != 0;
    DecodeJump(input, ctx, budget);
    assert ParseRuns(all, end, ctx, budget, None) ==
           if end == 0 then Jump(input, ctx, budget, None)
           else Push(Run(all[..end], ctx), Jump(input, ctx, budget, None));
    if Leads(input, ctx) && budget > 0 {
      var target := ctx[PointerOffset(input[0], input[1])..];
      assert target[..0] == Raw([]) && target[0..] == target;
      RunsAreDecoded(target, 0, ctx, budget - 1, []);
      var r := ParseRuns(target, 0, ctx, budget - 1, None);
      if r.Some? {
        var items := r.value.items;
        assert Wire(items) == Decode(target, ctx, budget - 1).value.segs;
        if end > 0 {
          assert before != [];
          PushOpen(all[..end], before, ctx, items);
        }
      }
    }
  }

  /** Parsing a label: the reference result, as well-formed runs. */
  lemma ParseIsDecode(input: seq<byte>, ctx: seq<byte>)
    ensures var r, d := ParseLabel(input, ctx, None), Decode(input, ctx, BUDGET);
      && (r.Some? <==> d.Some?)
      && (r.Some? ==>
            && r.value.rest == d.value.rest
            && RunItems(r.value.value.items)
            && |r.value.value.items| == d.value.runs
            && Wire(r.value.value.items) == d.value.segs
            && Segs(r.value.value) == FlatSplit(d.value.segs))
  {
    assert input[..0] == Raw([]) && input[0..] == input;
    RunsAreDecoded(input, 0, ctx, BUDGET, []);
    var r, d := ParseLabel(input, ctx, None), Decode(input, ctx, BUDGET);
    if r.Some? {
      assert [] + d.value.segs == d.value.segs;
      WireSplits(r.value.value.items);
    }
  }

  /** A small part list only rejects: what it accepts is what an unbounded list gives. */
  lemma {:induction false} RoomOnlyRejects(all: seq<byte>, end: nat, ctx: seq<byte>, budget: nat, room: nat)
    requires end <= |all|
    ensures ParseRuns(all, end, ctx, budget, Some(room)) ==
            (var r := ParseRuns(all, end, ctx, budget, None);
             if r.Some? && |r.value.items| <= room then r else None)
    decreases budget, |all| - end
  {
    hide Utf8;
    var input := all[end..];
    if input != [] && input[0] != 0 {
      if IsPointer(input) {
        if Leads(input, ctx) && budget > 0 {
          var target := ctx[PointerOffset(input[0], input[1])..];
          RoomOnlyRejects(target, 0, ctx, budget - 1, room);
          if room > 0 {
            RoomOnlyRejects(target, 0, ctx, budget - 1, room - 1);
          }
        }
      } else {
        var n := 1 + input[0];
        if |input| >= n && Utf8(input[1..n]) {
          RoomOnlyRejects(all, end + n, ctx, budget, room);
        }
      }
    }
  }
}

/** Domain names: their text, their parsed runs, and the segments both stand for. */
module Names {
  import opened Bytes

  type Seg = seq<byte>
  type Name = seq<Seg>

  /** One part of a label: octets found in a packet, or text given by the program. */
  datatype Part = Run(run: seq<byte>, context: seq<byte>) | Str(text: seq<byte>)
  datatype Label = Label(items: seq<Part>)

  /** Offset of the first dot, or the length when there is none. */
  function DotIndex(s: seq<byte>): (e: nat)
    ensures e <= |s|
    ensures e < |s| ==> s[e] == DOT
  {
    if s == [] || s[0] == DOT then 0 else 1 + DotIndex(s[1..])
  }

  function FirstSeg(s: seq<byte>): Seg
  {
    s[..DotIndex(s)]
  }

  /** What follows the first dot; empty when there is no dot. */
  function AfterDot(s: seq<byte>): (r: seq<byte>)
    ensures s != [] ==> |r| < |s|
  {
    if DotIndex(s) < |s| then s[DotIndex(s) + 1..] else []
  }

  /** The segments of program text: a dot at the very end adds no segment. */
  function StrSegs(s: seq<byte>): Name
    decreases |s|
  {
    if s == [] then [] else [FirstSeg(s)] + StrSegs(AfterDot(s))
  }

  /** `str::split('.')`: always at least one piece, the last one possibly empty. */
  function SplitDots(s: seq<byte>): (n: Name)
    ensures n != []
    decreases |s|
  {
    if DotIndex(s) == |s| then [s] else [FirstSeg(s)] + SplitDots(AfterDot(s))
  }

  function FlatSplit(segs: Name): Name
  {
    if segs == [] then [] else SplitDots(segs[0]) + FlatSplit(segs[1..])
  }

  /** Octets of whole wire segments, with the length cast to one octet. */
  function Raw(segs: Name): seq<byte>
  {
    if segs == [] then [] else [|segs[0]| % 0x100] + segs[0] + Raw(segs[1..])
  }

  predicate WireSeg(seg: Seg)
  {
    1 <= |seg| < 64 && Utf8(seg)
  }

  predicate WireSegs(segs: Name)
  {
    forall seg :: seg in segs ==> WireSeg(seg)
  }

  /** `run` is whole wire segments without a pointer octet, and nothing follows a zero octet. */
  predicate WholeRun(run: seq<byte>)
  {
    run == [] || run == [0] ||
    (1 <= run[0] < 64 && |run| > run[0] && Utf8(run[1..1 + run[0]]) && WholeRun(run[1 + run[0]..]))
  }

  /** The wire segments of a run. */
  function RunSegs(run: seq<byte>): Name
  {
    if |run| < 2 || run[0] >= 64 || |run| <= run[0] then []
    else [run[1..1 + run[0]]] + RunSegs(run[1 + run[0]..])
  }

  /** Labels made by the parser: runs, the last one and no other ending in the zero octet. */
  predicate RunItems(items: seq<Part>)
  {
    items != [] &&
    forall i :: 0 <= i < |items| ==>
      items[i].Run? && WholeRun(items[i].run) &&
      if i == |items| - 1 then EndsWhole(items[i].run) else OpenWhole(items[i].run)
  }

  /** Whole segments and then the zero octet. */
  predicate EndsWhole(run: seq<byte>)
  {
    run == Raw(RunSegs(run)) + [0]
  }

  /** At least one whole segment and no zero octet at the end. */
  predicate OpenWhole(run: seq<byte>)
  {
    run != [] && run == Raw(RunSegs(run))
  }

  predicate StrItems(items: seq<Part>)
  {
    items != [] && forall i :: 0 <= i < |items| ==> items[i].Str? && Utf8(items[i].text)
  }

  /** The two kinds of label that the codec and the server build. */
  predicate Built(lab: Label)
  {
    RunItems(lab.items) || StrItems(lab.items)
  }

  /** A label whose segments all have 1 to 63 octets, as every received label does. */
  predicate Proper(lab: Label)
  {
    Built(lab) && (RunItems(lab.items) || WireSegs(Segs(lab)))
  }

  function PartSegs(part: Part): Name
  {
    match part
    case Str(text) => StrSegs(text)
    case Run(run, _) => FlatSplit(RunSegs(run))
  }

  predicate WholeParts(items: seq<Part>)
  {
    forall i :: 0 <= i < |items| && items[i].Run? ==> WholeRun(items[i].run)
  }

  function ItemsSegs(items: seq<Part>): Name
  {
    if items == [] then [] else PartSegs(items[0]) + ItemsSegs(items[1..])
  }

  /** The segments `Label::iter` yields, which is all that label equality looks at. */
  function Segs(lab: Label): Name
  {
    ItemsSegs(lab.items)
  }

  /** Text that makes a proper name: no piece between dots is empty or longer than 63 octets. */
  predicate ProperText(s: seq<byte>)
  {
    Utf8(s) && s != [] && s[|s| - 1] != DOT && WireSegs(StrSegs(s))
  }

  // ---------------------------------------------------------------- facts

  lemma OnePart(s: seq<byte>)
    ensures ItemsSegs([Str(s)]) == StrSegs(s) && Segs(Label([Str(s)])) == StrSegs(s)
  {
    assert ItemsSegs([Str(s)]) == StrSegs(s) + ItemsSegs([]);
  }

  lemma TwoSegs(a: seq<byte>, b: seq<byte>)
    ensures Segs(Label([Str(a), Str(b)])) == StrSegs(a) + StrSegs(b)
  {
    hide StrSegs;
    OnePart(b);
    assert [Str(a), Str(b)][1..] == [Str(b)];
  }

  lemma {:induction false} FirstSegNoDot(s: seq<byte>)
    ensures DOT !in FirstSeg(s)
  {
    if s != [] && s[0] != DOT {
      FirstSegNoDot(s[1..]);
      assert FirstSeg(s) == [s[0]] + FirstSeg(s[1..]);
    }
  }

  lemma {:induction false} WholeRunSegs(run: seq<byte>)
    requires WholeRun(run)
    ensures WireSegs(RunSegs(run))
  {
    if |run| >= 2 {
      WholeRunSegs(run[1 + run[0]..]);
    }
  }

  lemma {:induction false} RawConcat(a: Name, b: Name)
    ensures Raw(a + b) == Raw(a) + Raw(b)
  {
    if a == [] {
      assert a + b == b;
    } else {
      RawConcat(a[1..], b);
      var ab, head := a + b, [|a[0]| % 0x100] + a[0];
      assert ab[1..] == a[1..] + b && ab[0] == a[0];
      assert Raw(ab) == head + Raw(a[1..] + b);
      Assoc(head, Raw(a[1..]), Raw(b));
    }
  }

  lemma {:induction false} ItemsSegsConcat(a: seq<Part>, b: seq<Part>)
    ensures ItemsSegs(a + b) == ItemsSegs(a) + ItemsSegs(b)
  {
    hide PartSegs;
    if a == [] {
      assert a + b == b;
    } else {
      ItemsSegsConcat(a[1..], b);
      var ab := a + b;
      assert ab[1..] == a[1..] + b && ab[0] == a[0];
      assert ItemsSegs(ab) == PartSegs(a[0]) + ItemsSegs(a[1..] + b);
      Assoc(PartSegs(a[0]), ItemsSegs(a[1..]), ItemsSegs(b));
    }
  }

  lemma {:induction false} FlatSplitConcat(a: Name, b: Name)
    ensures FlatSplit(a + b) == FlatSplit(a) + FlatSplit(b)
  {
    hide SplitDots;
    if a == [] {
      assert a + b == b;
    } else {
      FlatSplitConcat(a[1..], b);
      var ab := a + b;
      assert ab[1..] == a[1..] + b && ab[0] == a[0];
      assert FlatSplit(ab) == SplitDots(a[0]) + FlatSplit(a[1..] + b);
      Assoc(SplitDots(a[0]), FlatSplit(a[1..]), FlatSplit(b));
    }
  }

  predicate NoDots(segs: Name)
  {
    forall seg :: seg in segs ==> DOT !in seg
  }

  lemma {:induction false} FlatSplitNoDots(segs: Name)
    requires NoDots(segs)
    ensures FlatSplit(segs) == segs
  {
    if segs != [] {
      assert segs[0] in segs;
      assert DotIndex(segs[0]) == |segs[0]|;
      FlatSplitNoDots(segs[1..]);
    }
  }

  /** The pieces with a dot between each two. */
  function JoinDots(segs: Name): seq<byte>
  {
    if segs == [] then [] else if |segs| == 1 then segs[0] else segs[0] + [46] + JoinDots(segs[1..])
  }

  /** Splitting at dots, exactly: no piece has a dot, and with dots in between they are the text again. */
  lemma {:induction false} SplitExactly(s: seq<byte>)
    ensures NoDots(SplitDots(s)) && JoinDots(SplitDots(s)) == s
    decreases |s|
  {
    var e := DotIndex(s);
    FirstSegNoDot(s);
    if e == |s| {
      assert s[..e] == s;
    } else {
      SplitExactly(AfterDot(s));
      assert SplitDots(s)[1..] == SplitDots(AfterDot(s));
      assert s == s[..e] + [46] + s[e + 1..];
    }
  }

  /** What a received name is compared by: its wire segments, one after the other, each split at dots. */
  lemma ReceivedSplit(segs: Name, seg: Seg)
    ensures FlatSplit(segs + [seg]) == FlatSplit(segs) + SplitDots(seg) && FlatSplit([]) == []
  {
    FlatSplitConcat(segs, [seg]);
    assert FlatSplit([seg]) == SplitDots(seg) + FlatSplit([][..]);
  }

  /** Every segment of valid text is valid text without a dot. */
  lemma {:induction false} StrSegsText(s: seq<byte>)
    requires Utf8(s)
    ensures NoDots(StrSegs(s)) && forall seg :: seg in StrSegs(s) ==> Utf8(seg)
    decreases |s|
  {
    if s != [] {
      var e := DotIndex(s);
      FirstSegNoDot(s);
      if e < |s| {
        assert s == s[..e] + [DOT] + s[e + 1..];
        Utf8Split(s[..e], s[e + 1..]);
      } else {
        assert s[..e] == s;
      }
      StrSegsText(AfterDot(s));
    }
  }

  /** Pieces of a wire segment are no longer than the segment. */
  lemma {:induction false} SplitDotsShort(s: seq<byte>, bound: nat)
    requires |s| <= bound
    ensures forall seg :: seg in SplitDots(s) ==> |seg| <= bound
    decreases |s|
  {
    if DotIndex(s) < |s| {
      SplitDotsShort(AfterDot(s), bound);
    }
  }

  lemma {:induction false} FlatSplitShort(segs: Name)
    requires WireSegs(segs)
    ensures forall seg :: seg in FlatSplit(segs) ==> |seg| < 64
  {
    if segs != [] {
      assert segs[0] in segs;
      SplitDotsShort(segs[0], 63);
      FlatSplitShort(segs[1..]);
    }
  }

  /**
   `Label == &str` splits the text, `Label == Label` iterates it. They read the same segments
   exactly when the text is not empty and does not end in a dot.
   */
  lemma {:induction false} SplitAgrees(s: seq<byte>)
    ensures SplitDots(s) == StrSegs(s) <==> s != [] && s[|s| - 1] != DOT
    decreases |s|
  {
    if s != [] {
      var e := DotIndex(s);
      if e == |s| {
        FirstSegNoDot(s);
        assert StrSegs(s) == [s[..e]] + StrSegs([]);
        assert s[..e] == s;
      } else {
        SplitAgrees(AfterDot(s));
        assert StrSegs(s)[1..] == StrSegs(AfterDot(s));
        assert SplitDots(s)[1..] == SplitDots(AfterDot(s));
        if e + 1 < |s| {
          assert AfterDot(s)[|AfterDot(s)| - 1] == s[|s| - 1];
        }
      }
    }
  }

  /** A run is the octets of its segments, with a zero octet when it is the last one. */
  lemma {:induction false} RunIsRaw(run: seq<byte>)
    requires WholeRun(run)
    ensures run == Raw(RunSegs(run)) || run == Raw(RunSegs(run)) + [0]
  {
    if |run| >= 2 {
      var seg, rest := run[1..1 + run[0]], run[1 + run[0]..];
      RunIsRaw(rest);
      assert RunSegs(run) == [seg] + RunSegs(rest);
      assert Raw(RunSegs(run)) == [run[0]] + seg + Raw(RunSegs(rest));
      Assoc([run[0]] + seg, Raw(RunSegs(rest)), [0]);
      Split3(run, 1, 1 + run[0]);
      assert run[..1] == [run[0]];
    }
  }

  lemma WholeCons(seg: Seg, tail: seq<byte>)
    requires WireSeg(seg) && WholeRun(tail)
    ensures WholeRun([|seg|] + seg + tail)
    ensures RunSegs([|seg|] + seg + tail) == [seg] + RunSegs(tail)
  {
    hide Utf8;
    var run := [|seg|] + seg + tail;
    assert run[1..1 + |seg|] == seg && run[1 + |seg|..] == tail;
  }

  lemma {:induction false} RawIsWhole(segs: Name, last: bool)
    requires WireSegs(segs)
    ensures WholeRun(Raw(segs) + if last then [0] else [])
    ensures RunSegs(Raw(segs) + if last then [0] else []) == segs
  {
    hide Utf8;
    var end := if last then [0] else [];
    if segs != [] {
      assert segs[0] in segs;
      var head, tail := [|segs[0]|] + segs[0], Raw(segs[1..]);
      assert Raw(segs) + end == head + (tail + end) by {
        Assoc(head, tail, end);
      }
      RawIsWhole(segs[1..], last);
      WholeCons(segs[0], tail + end);
      assert segs == [segs[0]] + segs[1..];
    }
  }

  lemma {:induction false} RunsAreShort(items: seq<Part>)
    requires WholeParts(items) && forall i :: 0 <= i < |items| ==> items[i].Run?
    ensures forall seg :: seg in ItemsSegs(items) ==> |seg| < 64
  {
    if items != [] {
      assert items[0].Run?;
      WholeRunSegs(items[0].run);
      FlatSplitShort(RunSegs(items[0].run));
      RunsAreShort(items[1..]);
    }
  }

  // ---------------------------------------------------------------- iteration

  /** The head of a name as an iterator yields it. */
  function Head(n: Name): Option<Seg>
  {
    if n == [] then None else Some(n[0])
  }

  function Tail(n: Name): Name
  {
    if n == [] then [] else n[1..]
  }

  /** `LabelStrIter`: walks program text, dot by dot. */
  class LabelStrIter {
    var data: seq<byte>

    constructor (text: seq<byte>)
      ensures data == text
    {
      data := text;
    }

    function Remaining(): Name
      reads this
    {
      StrSegs(data)
    }

    method Next() returns (r: Option<Seg>)
      modifies this
      ensures r == Head(old(Remaining())) && Remaining() == Tail(old(Remaining()))
    {
      if data == [] {
        return None;
      }
      var end := DotIndex(data);
      r := Some(data[..end]);
      assert Tail(Remaining()) == StrSegs(AfterDot(data));
      data := if end == |data| then [] else data[end + 1..];
    }
  }

  /** What is left of a dotted segment. */
  function Pieces(partial: Option<seq<byte>>): Name
  {
    if partial.Some? then SplitDots(partial.value) else []
  }

  function AfterPiece(s: seq<byte>): Option<seq<byte>>
  {
    if DotIndex(s) < |s| then Some(s[DotIndex(s) + 1..]) else None
  }

  lemma PiecesStep(s: seq<byte>)
    ensures Pieces(Some(s)) == [FirstSeg(s)] + Pieces(AfterPiece(s))
  {
    if DotIndex(s) < |s| {
      assert AfterDot(s) == s[DotIndex(s) + 1..];
    } else {
      assert s[..|s|] == s;
    }
  }

  /** What a run iterator has left: the rest of a dotted segment, then the rest of the run. */
  function RunLeft(partial: Option<seq<byte>>, data: seq<byte>): Name
  {
    Pieces(partial) + FlatSplit(RunSegs(data))
  }

  lemma HeadOfSum(x: Seg, a: Name, b: Name)
    ensures Head([x] + a + b) == Some(x) && Tail([x] + a + b) == a + b
  {
  }

  /** `LabelRunIter`: walks the octets of a run; `partial` is what a dotted segment has left. */
  class LabelRunIter {
    var data: seq<byte>
    var partial: Option<seq<byte>>

    constructor (run: seq<byte>)
      ensures data == run && partial == None
    {
      data, partial := run, None;
    }

    function Remaining(): Name
      reads this
    {
      RunLeft(partial, data)
    }

    /** Never meets a pointer octet and never reads past the run. */
    method Next() returns (r: Option<Seg>)
      requires WholeRun(data)
      modifies this
      ensures WholeRun(data)
      ensures r == Head(old(Remaining())) && Remaining() == Tail(old(Remaining()))
    {
      hide Utf8, FlatSplit, SplitDots, DotIndex, RunSegs;
      if partial.None? {
        RunEnd(data);
        if |data| < 2 {
          return None;
        }
        var len := data[0];
        if len >= 64 {
          assert false;
        } else {
          var s := data[1..1 + len];
          RunStart(data);
          partial, data := Some(s), data[1 + len..];
        }
      }
      var s := partial.value;
      PiecesStep(s);
      HeadOfSum(FirstSeg(s), Pieces(AfterPiece(s)), FlatSplit(RunSegs(data)));
      r := Some(s[..DotIndex(s)]);
      partial := AfterPiece(s);
    }
  }

  lemma MoveHead<T>(a: seq<T>, b: seq<T>)
    requires b != []
    ensures a + b == (a + [b[0]]) + b[1..]
  {
    assert b == [b[0]] + b[1..];
  }

  lemma RunEnd(data: seq<byte>)
    ensures |data| < 2 ==> RunLeft(None, data) == []
  {
  }

  lemma RunStart(data: seq<byte>)
    requires WholeRun(data) && |data| >= 2
    ensures RunLeft(None, data) == RunLeft(Some(data[1..1 + data[0]]), data[1 + data[0]..])
  {
    var s := data[1..1 + data[0]];
    assert RunSegs(data)[1..] == RunSegs(data[1 + data[0]..]) && RunSegs(data)[0] == s;
  }

  /** `Label::iter`, run to its end. */
  method Iter(lab: Label) returns (segs: Name)
    requires WholeParts(lab.items)
    ensures segs == Segs(lab)
  {
    hide StrSegs, FlatSplit, RunSegs, WholeRun;
    segs := [];
    var items := lab.items;
    for i := 0 to |items|
      invariant segs == ItemsSegs(items[..i])
    {
      var piece: Name;
      match items[i] {
        case Str(text) => piece := DrainStr(text);
        case Run(run, _) => piece := DrainRun(run);
      }
      ItemsSegsConcat(items[..i], [items[i]]);
      assert items[..i + 1] == items[..i] + [items[i]];
      segs := segs + piece;
    }
    assert items[..|items|] == items;
  }

  method DrainStr(text: seq<byte>) returns (segs: Name)
    ensures segs == StrSegs(text)
  {
    var it := new LabelStrIter(text);
    segs := [];
    var next := it.Next();
    ghost var left := StrSegs(text);
    while next.Some?
      invariant StrSegs(text) == segs + left
      invariant next == Head(left) && it.Remaining() == Tail(left)
      decreases |left|
    {
      MoveHead(segs, left);
      segs := segs + [next.value];
      left := left[1..];
      next := it.Next();
    }
  }

  method DrainRun(run: seq<byte>) returns (segs: Name)
    requires WholeRun(run)
    ensures segs == FlatSplit(RunSegs(run))
  {
    var it := new LabelRunIter(run);
    segs := [];
    ghost var left := FlatSplit(RunSegs(run));
    assert it.Remaining() == left;
    var next := it.Next();
    while next.Some?
      invariant WholeRun(it.data)
      invariant FlatSplit(RunSegs(run)) == segs + left
      invariant next == Head(left) && it.Remaining() == Tail(left)
      decreases |left|
    {
      MoveHead(segs, left);
      segs := segs + [next.value];
      left := left[1..];
      next := it.Next();
    }
  }

  /** `PartialEq` of labels. */
  method LabelEq(a: Label, b: Label) returns (r: bool)
    requires WholeParts(a.items) && WholeParts(b.items)
    ensures r <==> Segs(a) == Segs(b)
  {
    var xs := Iter(a);
    var ys := Iter(b);
    r := xs == ys;
  }

  /** `PartialEq<&str>` of labels: in step with `str::split('.')`. */
  method LabelEqStr(a: Label, s: seq<byte>) returns (r: bool)
    requires WholeParts(a.items)
    ensures r <==> Segs(a) == SplitDots(s)
  {
    hide ItemsSegs, Utf8;
    var xs := Iter(a);
    var i := 0;
    var other: Option<seq<byte>> := Some(s);
    while i < |xs| && other.Some?
      invariant 0 <= i <= |xs|
      invariant (xs == SplitDots(s)) <==> (xs[i..] == if other.Some? then SplitDots(other.value) else [])
      decreases |xs| - i
    {
      var e := DotIndex(other.value);
      ghost var pieces := SplitDots(other.value);
      assert xs[i..] == [xs[i]] + xs[i + 1..];
      assert pieces[0] == other.value[..e];
      if xs[i] != other.value[..e] {
        return false;
      }
      assert pieces == [xs[i]] + pieces[1..];
      other := if e < |other.value| then Some(other.value[e + 1..]) else None;
      i := i + 1;
    }
    r := i == |xs| && other.None?;
  }
}

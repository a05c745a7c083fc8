/** Writing names with compression. */
module LabelWriter {
  import opened Bytes
  import opened Names
  import opened Writers

  /**
   What writing a name amounts to: the octets, the table afterwards, the segments written out in
   full, and the entry the closing pointer leads to.
   */
  datatype Emission = Emission(bytes: seq<byte>, table: Table, full: Name, hit: Option<Entry>)

  /** `(0xc000 | off as u16).to_be_bytes()`. */
  function PointerTo(off: nat): (b: seq<byte>)
    ensures |b| == 2
  {
    [0xC0 + off / 0x100 % 0x40, off % 0x100]
  }

  /** `serialize_str` at offset `pos`; `tail` is the segments of the parts that follow. */
  function EmitStr(s: seq<byte>, last: bool, pos: nat, table: Table, limit: Option<nat>, tail: Name): Emission
    decreases |s|, 1
  {
    if s == [] then Emission(if last then [0] else [], table, [], None)
    else if last && Find(table, s).Some? then
      Emission(PointerTo(Find(table, s).value.off), table, [], Find(table, s))
    else
      var r := EmitAfter(s, last, pos, table, limit, tail);
      Emission(LenSeg(FirstSeg(s)) + r.bytes, r.table, [FirstSeg(s)] + r.full, r.hit)
  }

  /** A segment after its length, cast to one octet. */
  function LenSeg(seg: Seg): (b: seq<byte>)
    ensures |b| == 1 + |seg|
  {
    [|seg| % 0x100] + seg
  }

  /** What follows once the first segment of `s` is stored and written. */
  function EmitAfter(s: seq<byte>, last: bool, pos: nat, table: Table, limit: Option<nat>, tail: Name): Emission
    requires s != []
    decreases |s|, 0
  {
    EmitStr(AfterDot(s), last, pos + 1 + |FirstSeg(s)|, StrStored(s, pos, table, limit, tail), limit, tail)
  }

  function StrStored(s: seq<byte>, pos: nat, table: Table, limit: Option<nat>, tail: Name): Table
  {
    Store(table, Entry(s, pos, StrSegs(s) + tail, 0), limit)
  }

  function EmitItems(items: seq<Part>, pos: nat, table: Table, limit: Option<nat>): Emission
  {
    if items == [] then Emission([], table, [], None)
    else
      var e := EmitPart(items[0], |items| == 1, pos, table, limit, ItemsSegs(items[1..]));
      Then(e, EmitItems(items[1..], pos + |e.bytes|, e.table, limit))
  }

  function Then(e: Emission, r: Emission): Emission
  {
    Emission(e.bytes + r.bytes, r.table, e.full + r.full, if e.hit.Some? then e.hit else r.hit)
  }

  function EmitPart(part: Part, last: bool, pos: nat, table: Table, limit: Option<nat>, tail: Name): Emission
  {
    match part
    case Run(run, _) => Emission(run, table, RunSegs(run), None)
    case Str(text) => EmitStr(text, last, pos, table, limit, tail)
  }

  function Hops(hit: Option<Entry>): nat
  {
    match hit case None => 0 case Some(e) => e.hops + 1
  }

  /**
   What an entry denotes once the pointer of its name is known: the segments from its own to the
   pointer, and then what the pointer leads to, which need not be what its text says.
   */
  function Sealed(x: Entry, hit: Option<Entry>): Entry
  {
    match hit
    case None => x.(hops := 0)
    case Some(e) =>
      var n := |StrSegs(e.text)|;
      x.(segs := if n <= |x.segs| then x.segs[..|x.segs| - n] + e.segs else x.segs, hops := Hops(hit))
  }

  /** Entries from index `n` on belong to the name just written. */
  function Seal(table: Table, n: nat, hit: Option<Entry>): (r: Table)
    ensures |r| == |table| && Erase(r) == Erase(table)
    ensures forall i :: 0 <= i < |r| ==> r[i] == if i < n then table[i] else Sealed(table[i], hit)
  {
    seq(|table|, i requires 0 <= i < |table| => if i < n then table[i] else Sealed(table[i], hit))
  }

  function EmitLabel(lab: Label, pos: nat, table: Table, limit: Option<nat>): Emission
  {
    var e := EmitItems(lab.items, pos, table, limit);
    e.(table := Seal(e.table, |table|, e.hit))
  }

  // ---------------------------------------------------------------- methods

  /** One segment of `serialize_str`: store the suffix, then write length and octets. */
  method WriteSeg(rest: seq<byte>, w: Writer, ghost tail: Name)
    requires w.Valid() && rest != []
    modifies w, w.output
    ensures w.Valid() && w.Advanced()
    ensures w.ideal == old(w.ideal) + ([|FirstSeg(rest)| % 256] + FirstSeg(rest))
    ensures w.table == StrStored(rest, |old(w.ideal)|, old(w.table), w.limit, tail)
  {
    hide StrSegs, DotIndex;
    var next := rest[..DotIndex(rest)];
    Assoc(w.ideal, [|next| % 0x100], next);
    w.PushLabel(rest, 0, Entry(rest, |w.ideal|, StrSegs(rest) + tail, 0));
    w.WriteU8(|next| % 0x100);
    w.Write(next);
  }

  /** `serialize_str`. */
  method SerializeStr(v: seq<byte>, w: Writer, isLast: bool, ghost tail: Name)
    requires w.Valid()
    modifies w, w.output
    ensures w.Valid() && w.Advanced()
    ensures var e := EmitStr(v, isLast, |old(w.ideal)|, old(w.table), w.limit, tail);
      w.ideal == old(w.ideal) + e.bytes && w.table == e.table
  {
    hide StrSegs, Find, FirstSeg, StrStored, PointerTo;
    var rest := v;
    ghost var goal := EmitStr(v, isLast, |w.ideal|, w.table, w.limit, tail);
    ghost var octets := w.ideal + goal.bytes;
    while rest != []
      invariant w.Valid() && w.Advanced()
      invariant !w.overflow ==>
        var more := EmitStr(rest, isLast, |w.ideal|, w.table, w.limit, tail);
        octets == w.ideal + more.bytes && goal.table == more.table
      invariant w.overflow ==> |octets| > w.output.Length
      decreases |rest|
    {
      if isLast {
        var found := w.FindLabel(rest);
        if found.Some? {
          w.Write(PointerTo(found.value));
          w.Settle(octets, goal.table);
          return;
        }
      }
      Assoc(w.ideal, LenSeg(FirstSeg(rest)), EmitAfter(rest, isLast, |w.ideal|, w.table, w.limit, tail).bytes);
      WriteSeg(rest, w, tail);
      rest := AfterDot(rest);
    }
    if isLast {
      w.WriteU8(0);
    }
    w.Settle(octets, goal.table);
  }

  /** `LabelRun::do_serialize`: the run is whole segments, so no pointer octet is ever met. */
  method SerializeRun(run: seq<byte>, w: Writer)
    requires w.Valid() && WholeRun(run)
    modifies w, w.output
    ensures w.Valid() && w.Advanced() && w.ideal == old(w.ideal) + run && w.table == old(w.table)
  {
    var data := run;
    while data != []
      invariant w.Valid() && w.Advanced() && WholeRun(data)
      invariant w.ideal + data == old(w.ideal) + run && w.table == old(w.table)
      decreases |data|
    {
      var len := data[0];
      if len == 0 {
        w.WriteU8(0);
        break;
      } else if len >= 0x40 {
        assert false;
      } else {
        Assoc(w.ideal, data[..len + 1], data[len + 1..]);
        assert data == data[..len + 1] + data[len + 1..];
        w.Write(data[..len + 1]);
        data := data[len + 1..];
      }
    }
  }

  /** `LabelPart::serialize`. */
  method SerializePart(part: Part, isLast: bool, w: Writer, ghost tail: Name)
    requires w.Valid() && (part.Run? ==> WholeRun(part.run))
    modifies w, w.output
    ensures w.Valid() && w.Advanced()
    ensures var e := EmitPart(part, isLast, |old(w.ideal)|, old(w.table), w.limit, tail);
      w.ideal == old(w.ideal) + e.bytes && w.table == e.table
  {
    match part {
      case Run(run, _) => SerializeRun(run, w);
      case Str(text) => SerializeStr(text, w, isLast, tail);
    }
  }

  /** `Label::serialize`: every part in order, the last one closing the name. */
  method SerializeLabel(lab: Label, w: Writer)
    requires w.Valid() && WholeParts(lab.items)
    modifies w, w.output
    ensures w.Valid() && w.Advanced()
    ensures var e := EmitLabel(lab, |old(w.ideal)|, old(w.table), w.limit);
      w.ideal == old(w.ideal) + e.bytes && w.table == e.table
  {
    hide EmitPart, Seal, ItemsSegs;
    var items := lab.items;
    ghost var goal := EmitItems(items, |w.ideal|, w.table, w.limit);
    ghost var octets := w.ideal + goal.bytes;
    ghost var n := |w.table|;
    while items != []
      invariant w.Valid() && w.Advanced() && WholeParts(items)
      invariant octets == w.ideal + EmitItems(items, |w.ideal|, w.table, w.limit).bytes
      invariant goal.table == EmitItems(items, |w.ideal|, w.table, w.limit).table
      decreases |items|
    {
      ghost var here := EmitPart(items[0], |items| == 1, |w.ideal|, w.table, w.limit, ItemsSegs(items[1..]));
      ghost var more := EmitItems(items[1..], |w.ideal| + |here.bytes|, here.table, w.limit);
      Assoc(w.ideal, here.bytes, more.bytes);
      assert octets == w.ideal + here.bytes + more.bytes && goal.table == more.table;
      SerializePart(items[0], |items| == 1, w, ItemsSegs(items[1..]));
      items := items[1..];
    }
    w.Settle(octets, Seal(w.table, n, goal.hit));
  }
}

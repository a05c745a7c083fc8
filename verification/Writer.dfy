/** The output buffer with its compression table, and what an unbounded buffer would hold. */
module Writers {
  import opened Bytes
  import opened Names

  /** What the writer stores for each suffix it has written. */
  datatype LabelOffset = LabelOffset(text: seq<byte>, off: nat)

  /**
   A table entry together with the name that stands at its offset: its segments, and the number of
   pointers met when it is read. Serialization never looks at `segs` and `hops`.
   */
  datatype Entry = Entry(text: seq<byte>, off: nat, segs: Name, hops: nat)
  type Table = seq<Entry>

  function Erase(table: Table): (r: seq<LabelOffset>)
    ensures |r| == |table|
    ensures forall i :: 0 <= i < |table| ==> r[i] == LabelOffset(table[i].text, table[i].off)
  {
    seq(|table|, i requires 0 <= i < |table| => LabelOffset(table[i].text, table[i].off))
  }

  /** The first entry with this text. */
  function Find(table: Table, s: seq<byte>): (r: Option<Entry>)
    ensures r.Some? ==> r.value in table && r.value.text == s
    ensures r.None? ==> forall e :: e in table ==> e.text != s
  {
    if table == [] then None
    else if table[0].text == s then Some(table[0])
    else Find(table[1..], s)
  }

  /** A full table takes no more entries, which is harmless. */
  function Store(table: Table, e: Entry, limit: Option<nat>): Table
  {
    if limit.Some? && |table| >= limit.value then table else table + [e]
  }

  function Offset(e: Option<Entry>): Option<nat>
  {
    match e case None => None case Some(v) => Some(v.off)
  }

  datatype Reservation = Reservation(start: nat, len: nat)

  /** Replacing `[a..b]` of an array replaces it in any prefix that holds it. */
  lemma PatchedPrefix(was: seq<byte>, now: seq<byte>, a: nat, b: nat, n: nat)
    requires a <= b <= n <= |was| == |now|
    requires now[..a] == was[..a] && now[b..] == was[b..]
    ensures now[..n] == was[..n][..a] + now[a..b] + was[..n][b..]
  {
    assert now[..n] == now[..a] + now[a..b] + now[b..n];
    assert now[b..n] == now[b..][..n - b] == was[b..][..n - b] == was[..n][b..];
  }

  class Writer {
    const output: array<byte>
    const limit: Option<nat>
    var position: nat
    var overflow: bool
    var lookup: seq<LabelOffset>

    /** The octets an unbounded buffer would hold by now, and its table. */
    ghost var ideal: seq<byte>
    ghost var table: Table

    /**
     Overflow is exactly running out of room for the ideal octets, and short of it the buffer
     holds them.
     */
    ghost predicate Valid()
      reads this, output
    {
      && position <= output.Length
      && (overflow <==> |ideal| > output.Length)
      && (!overflow ==> output[..position] == ideal && lookup == Erase(table))
    }

    /** The position never moves back, and not at all once octets are lost. */
    twostate predicate Advanced()
      reads this
    {
      old(position) <= position && (old(overflow) ==> overflow && position == old(position))
    }

    constructor (buffer: array<byte>, limit: Option<nat>)
      ensures Valid() && output == buffer && this.limit == limit
      ensures ideal == [] && table == [] && position == 0
    {
      output, this.limit := buffer, limit;
      position, overflow, lookup := 0, false, [];
      ideal, table := [], [];
    }

    method Write(data: seq<byte>)
      requires Valid()
      modifies this, output
      ensures Valid() && ideal == old(ideal) + data && table == old(table)
      ensures Advanced() && position == if overflow then old(position) else old(position) + |data|
    {
      ideal := ideal + data;
      if overflow {
        return;
      }
      if position + |data| > output.Length {
        overflow := true;
        return;
      }
      for i := 0 to |data|
        modifies output
        invariant output[..position] == old(output[..position])
        invariant output[position..position + i] == data[..i]
      {
        output[position + i] := data[i];
        assert output[position..position + i + 1] == output[position..position + i] + [data[i]];
      }
      assert output[..position + |data|] == output[..position] + output[position..position + |data|];
      position := position + |data|;
    }

    method WriteU8(b: byte)
      requires Valid()
      modifies this, output
      ensures Valid() && ideal == old(ideal) + [b] && table == old(table)
      ensures Advanced() && position == if overflow then old(position) else old(position) + 1
    {
      ideal := ideal + [b];
      if overflow {
        return;
      }
      if position >= output.Length {
        overflow := true;
        return;
      }
      output[position] := b;
      assert output[..position + 1] == output[..position] + [b];
      position := position + 1;
    }

    /** Skips octets, leaving whatever the buffer holds there. */
    method Inc(v: nat)
      requires Valid()
      modifies this
      ensures Valid() && |ideal| == |old(ideal)| + v && ideal[..|old(ideal)|] == old(ideal)
      ensures table == old(table) && Advanced()
      ensures position == if overflow then old(position) else old(position) + v
    {
      var fits := position + v <= output.Length;
      ideal := ideal + if !overflow && fits then output[position..position + v] else seq(v, _ => 0);
      if overflow {
        return;
      }
      if !fits {
        overflow := true;
        return;
      }
      assert output[..position + v] == output[..position] + output[position..position + v];
      position := position + v;
    }

    method FindLabel(s: seq<byte>) returns (r: Option<nat>)
      requires Valid()
      ensures !overflow ==> r == Offset(Find(table, s))
    {
      var i := 0;
      while i < |lookup|
        invariant 0 <= i <= |lookup|
        invariant !overflow ==> Find(table, s) == Find(table[i..], s)
      {
        if lookup[i].text == s {
          return Some(lookup[i].off);
        }
        i := i + 1;
      }
      return None;
    }

    /** `e` is the entry as the specification sees it: its text, and the current offset. */
    method PushLabel(s: seq<byte>, offset: nat, ghost e: Entry)
      requires Valid() && (!overflow ==> e.text == s && e.off == |ideal| + offset)
      modifies this`lookup, this`table
      ensures Valid()
      ensures table == if limit.None? || |old(table)| < limit.value then old(table) + [e] else old(table)
    {
      table := Store(table, e, limit);
      if limit.None? || |lookup| < limit.value {
        lookup := lookup + [LabelOffset(s, position + offset)];
      }
    }

    method Reserve(len: nat) returns (r: Reservation)
      requires Valid()
      modifies this
      ensures Valid() && |ideal| == |old(ideal)| + len && ideal[..|old(ideal)|] == old(ideal)
      ensures table == old(table) && Advanced()
      ensures r == Reservation(old(position), len)
      ensures position == if overflow then old(position) else old(position) + len
    {
      r := Reservation(position, len);
      Inc(len);
    }

    function DistanceFromReservation(r: Reservation): nat
      requires r.start <= position
      reads this
    {
      position - r.start
    }

    /** Fills a reservation; `at` is where it stands in the ideal octets. */
    method WriteReservation(r: Reservation, data: seq<byte>, ghost at: nat)
      requires Valid() && |data| == r.len && at + r.len <= |ideal|
      requires !overflow ==> r.start == at
      modifies this`ideal, output
      ensures Valid() && ideal == old(ideal)[..at] + data + old(ideal)[at + r.len..]
    {
      ideal := ideal[..at] + data + ideal[at + r.len..];
      if overflow {
        return;
      }
      hide Erase;
      for i := 0 to |data|
        modifies output
        invariant output[..r.start] == old(output[..r.start])
        invariant output[r.start..r.start + i] == data[..i]
        invariant output[r.start + r.len..] == old(output[r.start + r.len..])
      {
        output[r.start + i] := data[i];
        assert output[r.start..r.start + i + 1] == output[r.start..r.start + i] + [data[i]];
      }
      PatchedPrefix(old(output[..]), output[..], r.start, r.start + r.len, position);
    }

    /**
     Once octets are lost only their number matters, so the ideal may be set to any octets that
     do not fit; otherwise only the specification part of the table changes.
     */
    ghost method Settle(octets: seq<byte>, entries: Table)
      requires Valid()
      requires overflow ==> |octets| > output.Length
      requires !overflow ==> octets == ideal && Erase(entries) == Erase(table)
      modifies this`ideal, this`table
      ensures Valid() && ideal == octets && table == entries
    {
      ideal, table := octets, entries;
    }
  }
}

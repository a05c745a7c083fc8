/** Octets, big-endian integers and UTF-8, as the codec uses them. */
module Bytes {

  datatype Option<+T> = None | Some(value: T)

  type byte = x: int | 0 <= x < 0x100
  type u16 = x: int | 0 <= x < 0x1_0000
  type u32 = x: int | 0 <= x < 0x1_0000_0000

  /** `(n as u16).to_be_bytes()`: the cast drops the high bits. */
  function Be16(n: nat): (b: seq<byte>)
    ensures |b| == 2
  {
    [n / 0x100 % 0x100, n % 0x100]
  }

  function Be32(n: u32): (b: seq<byte>)
    ensures |b| == 4
  {
    Be16(n / 0x1_0000) + Be16(n % 0x1_0000)
  }

  /** What a nom parser returns on success: the value and the input left over. */
  datatype Parsed<+T> = Parsed(value: T, rest: seq<byte>)

  /** The 16-bit value of two big-endian octets. */
  function Join16(hi: int, lo: int): int
  {
    hi * 0x100 + lo
  }

  function ReadU16(input: seq<byte>): (r: Option<Parsed<u16>>)
    ensures r.Some? <==> |input| >= 2
    ensures r.Some? ==> r.value.rest == input[2..]
  {
    if |input| < 2 then None else Some(Parsed(Join16(input[0], input[1]), input[2..]))
  }

  function ReadU32(input: seq<byte>): (r: Option<Parsed<u32>>)
    ensures r.Some? <==> |input| >= 4
    ensures r.Some? ==> r.value.rest == input[4..]
  {
    if |input| < 4 then None
    else
      Some(Parsed(Join16(input[0], input[1]) * 0x1_0000 + Join16(input[2], input[3]), input[4..]))
  }

  function Take(n: nat, input: seq<byte>): (r: Option<Parsed<seq<byte>>>)
    ensures r.Some? <==> |input| >= n
    ensures r.Some? ==> r.value.value == input[..n] && r.value.rest == input[n..]
  {
    if |input| < n then None else Some(Parsed(input[..n], input[n..]))
  }

  lemma ReadBackU16(n: u16, input: seq<byte>)
    requires |input| >= 2 && input[..2] == Be16(n)
    ensures ReadU16(input) == Some(Parsed(n, input[2..]))
  {
    assert input[0] == input[..2][0] && input[1] == input[..2][1];
  }

  lemma ReadBackU32(n: u32, input: seq<byte>)
    requires |input| >= 4 && input[..4] == Be32(n)
    ensures ReadU32(input) == Some(Parsed(n, input[4..]))
  {
    var hi, lo := n / 0x1_0000, n % 0x1_0000;
    assert forall i :: 0 <= i < 4 ==> input[i] == input[..4][i];
    assert Join16(input[0], input[1]) == hi;
    assert Join16(input[2], input[3]) == lo;
  }

  /** The octets `bytes` stand in `b` at offset `p`. */
  predicate At(b: seq<byte>, p: nat, bytes: seq<byte>)
  {
    p + |bytes| <= |b| && b[p..p + |bytes|] == bytes
  }

  lemma AtSplit(b: seq<byte>, p: nat, x: seq<byte>, y: seq<byte>)
    requires At(b, p, x + y)
    ensures At(b, p, x) && At(b, p + |x|, y)
  {
    assert b[p..p + |x|] == (x + y)[..|x|];
    assert b[p + |x|..p + |x| + |y|] == (x + y)[|x|..];
  }

  lemma Assoc<T>(a: seq<T>, b: seq<T>, c: seq<T>)
    ensures (a + b) + c == a + (b + c)
  {
  }

  lemma Split3<T>(s: seq<T>, i: nat, j: nat)
    requires i <= j <= |s|
    ensures s == s[..i] + s[i..j] + s[j..]
  {
  }

  lemma Itself(b: seq<byte>)
    ensures At(b, 0, b)
  {
  }

  lemma AtDrop(b: seq<byte>, p: nat, x: seq<byte>)
    requires At(b, p, x)
    ensures |b[p..]| >= |x| && b[p..][..|x|] == x && b[p..][|x|..] == b[p + |x|..]
  {
  }

  // UTF-8 (table 3-7 of the Unicode standard), the check done by `str::from_utf8`.

  predicate Cont(b: byte)
  {
    0x80 <= b < 0xC0
  }

  /** Octets taken by the character at the head of `s`, or 0 when it is malformed. */
  function CharWidth(s: seq<byte>): (w: nat)
    requires s != []
    ensures w <= |s|
  {
    var a := s[0];
    if a < 0x80 then 1
    else if 0xC2 <= a < 0xE0 && |s| >= 2 && Cont(s[1]) then 2
    else if 0xE0 <= a < 0xF0 && |s| >= 3 && Cont(s[1]) && Cont(s[2])
            && (a == 0xE0 ==> s[1] >= 0xA0) && (a == 0xED ==> s[1] < 0xA0) then 3
    else if 0xF0 <= a < 0xF5 && |s| >= 4 && Cont(s[1]) && Cont(s[2]) && Cont(s[3])
            && (a == 0xF0 ==> s[1] >= 0x90) && (a == 0xF4 ==> s[1] < 0x90) then 4
    else 0
  }

  predicate Utf8(s: seq<byte>)
  {
    s == [] || (CharWidth(s) > 0 && Utf8(s[CharWidth(s)..]))
  }

  const DOT: byte := 46

  lemma {:induction false} Utf8Join(a: seq<byte>, b: seq<byte>)
    requires Utf8(a) && Utf8(b)
    ensures Utf8(a + b)
    decreases |a|
  {
    if a == [] {
      assert a + b == b;
    } else {
      var w := CharWidth(a);
      assert CharWidth(a + b) == w;
      Utf8Join(a[w..], b);
      assert (a + b)[w..] == a[w..] + b;
    }
  }

  /** Cutting valid UTF-8 at an ASCII dot leaves valid UTF-8 on both sides. */
  lemma {:induction false} Utf8Split(a: seq<byte>, b: seq<byte>)
    requires Utf8(a + [DOT] + b)
    ensures Utf8(a) && Utf8(b)
    decreases |a|
  {
    var s := a + [DOT] + b;
    if a == [] {
      assert s[1..] == b;
    } else {
      var w := CharWidth(s);
      assert s[|a|] == DOT;
      assert forall i :: 0 <= i < |a| ==> s[i] == a[i];
      assert w <= |a| && CharWidth(a) == w;
      assert s[w..] == a[w..] + [DOT] + b;
      Utf8Split(a[w..], b);
    }
  }
}

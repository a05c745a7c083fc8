/** The UTF-8 check, exactly: the octets it passes are those of some Unicode scalar values. */
module Utf8Exact {
  import opened Bytes

  /** Unicode scalar values: all code points but the surrogates. */
  predicate Scalar(c: int)
  {
    0 <= c < 0xD800 || 0xE000 <= c < 0x11_0000
  }

  /** Section 3 of RFC 3629. */
  function Encode(c: int): (b: seq<byte>)
    requires Scalar(c)
    ensures 1 <= |b| <= 4
  {
    if c < 0x80 then [c]
    else if c < 0x800 then [0xC0 + c / 0x40, 0x80 + c % 0x40]
    else if c < 0x1_0000 then [0xE0 + c / 0x1000, 0x80 + c / 0x40 % 0x40, 0x80 + c % 0x40]
    else [0xF0 + c / 0x4_0000, 0x80 + c / 0x1000 % 0x40, 0x80 + c / 0x40 % 0x40, 0x80 + c % 0x40]
  }

  predicate Scalars(cs: seq<int>)
  {
    forall c :: c in cs ==> Scalar(c)
  }

  function EncodeAll(cs: seq<int>): seq<byte>
    requires Scalars(cs)
  {
    if cs == [] then [] else Encode(cs[0]) + EncodeAll(cs[1..])
  }

  /** Every encoded scalar is taken as one character, whatever follows. */
  lemma EncodedIsChar(c: int, rest: seq<byte>)
    requires Scalar(c)
    ensures CharWidth(Encode(c) + rest) == |Encode(c)|
  {
  }

  /** Six bits at a time. */
  lemma Sixes(p: nat, q: nat, r: nat, t: nat)
    requires q < 0x40 && r < 0x40 && t < 0x40
    ensures (p * 0x40 + q) / 0x40 == p && (p * 0x40 + q) % 0x40 == q
    ensures (p * 0x1000 + q * 0x40 + r) / 0x40 == p * 0x40 + q && (p * 0x1000 + q * 0x40 + r) % 0x40 == r
    ensures (p * 0x1000 + q * 0x40 + r) / 0x1000 == p
    ensures var c := p * 0x4_0000 + q * 0x1000 + r * 0x40 + t;
      c / 0x40 == p * 0x1000 + q * 0x40 + r && c % 0x40 == t && c / 0x1000 == p * 0x40 + q && c / 0x4_0000 == p
  {
  }

  lemma Taken(s: seq<byte>, w: nat)
    requires w <= |s|
    ensures w == 1 ==> s[..w] == [s[0]]
    ensures w == 2 ==> s[..w] == [s[0], s[1]]
    ensures w == 3 ==> s[..w] == [s[0], s[1], s[2]]
    ensures w == 4 ==> s[..w] == [s[0], s[1], s[2], s[3]]
  {
  }

  /** And every character taken encodes a scalar. */
  lemma CharIsEncoded(s: seq<byte>) returns (c: int)
    requires s != [] && CharWidth(s) > 0
    ensures Scalar(c) && Encode(c) == s[..CharWidth(s)]
  {
    var w := CharWidth(s);
    var a: int := s[0];
    Taken(s, w);
    if w == 1 {
      c := a;
    } else {
      c := LongChar(s, w);
    }
  }

  lemma LongChar(s: seq<byte>, w: nat) returns (c: int)
    requires s != [] && CharWidth(s) == w > 1
    ensures Scalar(c) && Encode(c) == s[..w]
  {
    hide Scalar, Encode;
    if w == 2 {
      c := Char2(s);
    } else if w == 3 {
      c := Char3(s);
    } else {
      c := Char4(s);
    }
  }

  lemma Char2(s: seq<byte>) returns (c: int)
    requires s != [] && CharWidth(s) == 2
    ensures Scalar(c) && Encode(c) == s[..2]
  {
    Taken(s, 2);
    var a: int, b: int := s[0], s[1];
    var p, q := a - 0xC0, b - 0x80;
    c := p * 0x40 + q;
    assert c / 0x40 == p && c % 0x40 == q;
  }

  lemma Char3(s: seq<byte>) returns (c: int)
    requires s != [] && CharWidth(s) == 3
    ensures Scalar(c) && Encode(c) == s[..3]
  {
    Taken(s, 3);
    var a: int, b: int, d: int := s[0], s[1], s[2];
    var p, q, r := a - 0xE0, b - 0x80, d - 0x80;
    c := Three(p, q, r);
    assert 0x800 <= c < 0x1_0000;
  }

  lemma Three(p: nat, q: nat, r: nat) returns (c: int)
    requires q < 0x40 && r < 0x40
    ensures c == p * 0x1000 + q * 0x40 + r
    ensures c / 0x1000 == p && c / 0x40 % 0x40 == q && c % 0x40 == r
  {
    c := p * 0x1000 + q * 0x40 + r;
    Sixes(p, q, r, 0);
    assert (p * 0x40 + q) % 0x40 == q;
  }

  lemma Char4(s: seq<byte>) returns (c: int)
    requires s != [] && CharWidth(s) == 4
    ensures Scalar(c) && Encode(c) == s[..4]
  {
    Taken(s, 4);
    var a: int, b: int, d: int, e: int := s[0], s[1], s[2], s[3];
    var p, q, r, t := a - 0xF0, b - 0x80, d - 0x80, e - 0x80;
    c := Four(p, q, r, t);
    assert 0x1_0000 <= c < 0x11_0000;
  }

  lemma Four(p: nat, q: nat, r: nat, t: nat) returns (c: int)
    requires q < 0x40 && r < 0x40 && t < 0x40
    ensures c == p * 0x4_0000 + q * 0x1000 + r * 0x40 + t
    ensures c / 0x4_0000 == p && c / 0x1000 % 0x40 == q && c / 0x40 % 0x40 == r && c % 0x40 == t
  {
    c := p * 0x4_0000 + q * 0x1000 + r * 0x40 + t;
    Sixes(p, q, r, t);
    var h := Three(p, q, r);
    assert (p * 0x40 + q) % 0x40 == q;
  }

  lemma {:induction false} EncodedPasses(cs: seq<int>)
    requires Scalars(cs)
    ensures Utf8(EncodeAll(cs))
  {
    hide CharWidth, Encode;
    if cs != [] {
      var head, tail := Encode(cs[0]), EncodeAll(cs[1..]);
      EncodedPasses(cs[1..]);
      EncodedIsChar(cs[0], tail);
      assert (head + tail)[|head|..] == tail;
    }
  }

  lemma {:induction false} PassedIsEncoded(s: seq<byte>) returns (cs: seq<int>)
    requires Utf8(s)
    ensures Scalars(cs) && s == EncodeAll(cs)
    decreases |s|
  {
    hide CharWidth, Encode;
    if s == [] {
      cs := [];
    } else {
      var w := CharWidth(s);
      var c := CharIsEncoded(s);
      var more := PassedIsEncoded(s[w..]);
      cs := [c] + more;
      assert cs[1..] == more && s == s[..w] + s[w..];
    }
  }

  lemma Utf8Exactly(s: seq<byte>)
    ensures Utf8(s) <==> exists cs :: Scalars(cs) && s == EncodeAll(cs)
  {
    if Utf8(s) {
      var cs := PassedIsEncoded(s);
    }
    if exists cs :: Scalars(cs) && s == EncodeAll(cs) {
      var cs :| Scalars(cs) && s == EncodeAll(cs);
      EncodedPasses(cs);
    }
  }
}

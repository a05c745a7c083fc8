/** Networks, bit by bit. */
module Networks {
  import opened Bytes
  import opened Services
  import opened Servers

  function Bit(x: int, k: nat): int
    requires k < 8 && 0 <= x
  {
    if k == 0 then x % 2 else Bit(x / 2, k - 1)
  }

  /** The lowest `n` bits of `a` and `b` agree wherever the mask has a one. */
  ghost predicate Agree(a: nat, b: nat, m: nat, n: nat)
    requires n <= 8
  {
    forall k: nat :: k < n && Bit(m, k) == 1 ==> Bit(a, k) == Bit(b, k)
  }

  lemma AgreeStep(a: nat, b: nat, m: nat, n: nat)
    requires 0 < n <= 8
    ensures Agree(a, b, m, n) <==> (m % 2 == 1 ==> a % 2 == b % 2) && Agree(a / 2, b / 2, m / 2, n - 1)
  {
    assert Bit(m, 0) == m % 2 && Bit(a, 0) == a % 2 && Bit(b, 0) == b % 2;
    if Agree(a, b, m, n) {
      forall k: nat | k < n - 1 && Bit(m / 2, k) == 1
        ensures Bit(a / 2, k) == Bit(b / 2, k)
      {
        assert Bit(m, k + 1) == 1 && Bit(a, k + 1) == Bit(b, k + 1);
      }
    }
    if (m % 2 == 1 ==> a % 2 == b % 2) && Agree(a / 2, b / 2, m / 2, n - 1) {
      forall k: nat | k < n && Bit(m, k) == 1
        ensures Bit(a, k) == Bit(b, k)
      {
        assert k > 0 ==> Bit(m / 2, k - 1) == 1 && Bit(a / 2, k - 1) == Bit(b / 2, k - 1);
      }
    }
  }

  lemma {:induction false} AndBits(a: nat, b: nat, m: nat, n: nat)
    requires a < Pow2(n) && b < Pow2(n) && m < Pow2(n) && n <= 8
    ensures BitAnd(a, m) == BitAnd(b, m) <==> Agree(a, b, m, n)
    decreases n
  {
    hide BitAnd, Agree;
    if n == 0 {
      AgreeNone(a, b, m);
    } else {
      AndBits(a / 2, b / 2, m / 2, n - 1);
      AgreeStep(a, b, m, n);
      AndStep(a, m);
      AndStep(b, m);
      var x, y := BitAnd(a, m), BitAnd(b, m);
      assert x == 2 * (x / 2) + x % 2 && y == 2 * (y / 2) + y % 2;
    }
  }

  lemma AgreeNone(a: nat, b: nat, m: nat)
    ensures Agree(a, b, m, 0)
  {
  }

  function Pow2(n: nat): nat
  {
    if n == 0 then 1 else 2 * Pow2(n - 1)
  }

  lemma AndStep(a: nat, b: nat)
    ensures BitAnd(a, b) / 2 == BitAnd(a / 2, b / 2) && BitAnd(a, b) % 2 == if b % 2 == 1 then a % 2 else 0
  {
  }

  /** Two addresses of a kind are in one network just when they agree in every bit that the mask has. */
  lemma NetworkBits(ip: IpAddr, mask: IpAddr, other: IpAddr)
    ensures SameNetwork(ip, mask, other) <==>
            || (ip.V4? && mask.V4? && other.V4? && MaskAgrees(ip.v4, mask.v4, other.v4))
            || (ip.V6? && mask.V6? && other.V6? && MaskAgrees(ip.v6, mask.v6, other.v6))
  {
    hide BitAnd, Agree;
    match (ip, mask, other)
    case (V4(a), V4(m), V4(o)) => MaskedIs(a, m, o);
    case (V6(a), V6(m), V6(o)) => MaskedIs(a, m, o);
    case _ =>
  }

  ghost predicate MaskAgrees(a: seq<byte>, m: seq<byte>, o: seq<byte>)
    requires |a| == |m| == |o|
  {
    forall i :: 0 <= i < |a| ==> Agree(a[i], o[i], m[i], 8)
  }

  lemma MaskedIs(a: seq<byte>, m: seq<byte>, o: seq<byte>)
    requires |a| == |m| == |o|
    ensures SameMasked(a, m, o) <==> MaskAgrees(a, m, o)
  {
    hide BitAnd, Agree;
    assert Pow2(8) == 256 by {
      assert Pow2(4) == 16;
    }
    forall i | 0 <= i < |a|
      ensures BitAnd(a[i], m[i]) == BitAnd(o[i], m[i]) <==> Agree(a[i], o[i], m[i], 8)
    {
      AndBits(a[i], o[i], m[i], 8);
    }
  }
}

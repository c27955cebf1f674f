/** The binary digits of natural numbers. */
module Digits {
  import opened Basics

  predicate Bit(w: nat, i: nat) { if i == 0 then w % 2 == 1 else Bit(w / 2, i - 1) }

  /** The number with these digits, lowest first. */
  function Number(bs: seq<bool>): nat {
    if bs == [] then 0 else (if bs[0] then 1 else 0) + 2 * Number(bs[1..])
  }

  /** Without the `n` lowest digits. */
  function High(w: nat, n: nat): nat { if n == 0 then w else High(w / 2, n - 1) }

  /** The `n` lowest digits. */
  function Low(w: nat, n: nat): nat { if n == 0 then 0 else w % 2 + 2 * Low(w / 2, n - 1) }

  lemma {:induction false} NumberBelow(bs: seq<bool>)
    ensures Number(bs) < Pow2(|bs|)
  {
    if bs != [] { NumberBelow(bs[1..]); }
  }

  lemma {:induction false} NumberBit(bs: seq<bool>, i: nat)
    ensures Bit(Number(bs), i) <==> i < |bs| && bs[i]
    decreases i
  {
    if bs == [] { ZeroBit(i); }
    else {
      NumberHalf(bs);
      if i > 0 { NumberBit(bs[1..], i - 1); }
    }
  }

  lemma NumberHalf(bs: seq<bool>)
    requires bs != []
    ensures Number(bs) / 2 == Number(bs[1..]) && (Number(bs) % 2 == 1 <==> bs[0])
  {
  }

  lemma {:induction false} ZeroBit(i: nat)
    ensures !Bit(0, i)
  {
    if i > 0 { ZeroBit(i - 1); }
  }

  lemma {:induction false} BitHigh(w: nat, n: nat, i: nat)
    ensures Bit(High(w, n), i) <==> Bit(w, n + i)
    decreases n
  {
    if n > 0 { BitHigh(w / 2, n - 1, i); }
  }

  lemma {:induction false} BitLow(w: nat, n: nat, i: nat)
    ensures Bit(Low(w, n), i) <==> i < n && Bit(w, i)
    decreases i
  {
    if n == 0 { ZeroBit(i); }
    else if i > 0 {
      assert Low(w, n) / 2 == Low(w / 2, n - 1);
      BitLow(w / 2, n - 1, i - 1);
    }
  }

  lemma DivUnique(x: nat, d: nat, q: nat, r: nat)
    requires r < d && x == q * d + r
    ensures x / d == q && x % d == r
  {
    var e := x / d - q;
    assert x == (x / d) * d + x % d;
    assert e * d == r - x % d;
    assert e == 0 by { Small(e, d, r - x % d); }
  }

  lemma Small(e: int, d: int, x: int)
    requires d > 0 && e * d == x && -d < x < d
    ensures e == 0
  {
  }

  /** Halving first. */
  lemma Halve(w: nat, d: nat)
    requires d > 0
    ensures w / (2 * d) == w / 2 / d && w % (2 * d) == 2 * (w / 2 % d) + w % 2
  {
    var q, r := w / 2 / d, w / 2 % d;
    assert w / 2 == q * d + r;
    assert w == q * (2 * d) + (2 * r + w % 2);
    DivUnique(w, 2 * d, q, 2 * r + w % 2);
  }

  lemma {:induction false} HighIs(w: nat, n: nat)
    ensures w / Pow2(n) == High(w, n)
    decreases n
  {
    if n > 0 {
      Halve(w, Pow2(n - 1));
      HighIs(w / 2, n - 1);
    }
  }

  lemma {:induction false} LowIs(w: nat, n: nat)
    ensures w % Pow2(n) == Low(w, n)
    decreases n
  {
    if n > 0 {
      Halve(w, Pow2(n - 1));
      LowIs(w / 2, n - 1);
    }
  }

  /** The powers that word formats use. */
  lemma Powers()
    ensures Pow2(3) == 8 && Pow2(4) == 0x10 && Pow2(5) == 0x20 && Pow2(6) == 0x40 && Pow2(7) == 0x80 && Pow2(8) == 0x100 && Pow2(10) == 0x400
    ensures Pow2(11) == 0x800 && Pow2(13) == 0x2000 && Pow2(14) == 0x4000 && Pow2(15) == 0x8000 && Pow2(16) == 0x1_0000
    ensures Pow2(24) == 0x100_0000 && Pow2(29) == 0x2000_0000 && Pow2(32) == 0x1_0000_0000
  {
    assert Pow2(3) == 8;
    assert Pow2(5) == 32;
    assert Pow2(7) == 128;
    assert Pow2(9) == 0x200;
    assert Pow2(11) == 0x800;
    assert Pow2(13) == 0x2000;
    assert Pow2(15) == 0x8000;
    assert Pow2(17) == 0x2_0000;
    assert Pow2(19) == 0x8_0000;
    assert Pow2(21) == 0x20_0000;
    assert Pow2(23) == 0x80_0000;
    assert Pow2(25) == 0x200_0000;
    assert Pow2(27) == 0x800_0000;
    assert Pow2(29) == 0x2000_0000;
    assert Pow2(31) == 0x8000_0000;
  }
}

/** Octets, numbers in network byte order, and bits counted from the low end. */
module Octets {

  type Octet = n: int | 0 <= n < 256
  type Short = n: int | 0 <= n < 65536

  function Pow256(w: nat): (r: nat)
    ensures r > 0
  {
    if w == 0 then 1 else 256 * Pow256(w - 1)
  }

  /** `w` octets, most significant first. */
  function Pack(n: nat, w: nat): (s: seq<Octet>)
    ensures |s| == w
  {
    if w == 0 then [] else Pack(n / 256, w - 1) + [n % 256]
  }

  function Unpack(s: seq<Octet>): (n: nat)
    ensures n < Pow256(|s|)
  {
    if s == [] then 0 else Unpack(s[..|s| - 1]) * 256 + s[|s| - 1]
  }

  lemma HighFits(n: nat, p: nat)
    requires n < 256 * p
    ensures n / 256 < p
  {
  }

  lemma {:induction false} UnpackPack(n: nat, w: nat)
    requires n < Pow256(w)
    ensures Unpack(Pack(n, w)) == n
  {
    if w > 0 {
      HighFits(n, Pow256(w - 1));
      UnpackPack(n / 256, w - 1);
      UnpackOneMore(Pack(n / 256, w - 1), n % 256);
    }
  }

  lemma UnpackOneMore(s: seq<Octet>, low: Octet)
    ensures Unpack(s + [low]) == Unpack(s) * 256 + low
  {
    assert (s + [low])[..|s|] == s;
  }

  lemma HighAndLow(high: nat, low: Octet)
    ensures (high * 256 + low) / 256 == high && (high * 256 + low) % 256 == low
  {
  }

  lemma PackOneMore(high: nat, low: Octet, w: nat)
    ensures Pack(high * 256 + low, w + 1) == Pack(high, w) + [low]
  {
    HighAndLow(high, low);
  }

  lemma {:induction false} PackUnpack(s: seq<Octet>)
    ensures Pack(Unpack(s), |s|) == s
  {
    if s != [] {
      var high, low := s[..|s| - 1], s[|s| - 1];
      PackUnpack(high);
      PackOneMore(Unpack(high), low, |high|);
      assert s == high + [low];
    }
  }

  /** Network byte order: the first octet weighs most. */
  lemma {:induction false} FirstWeighsMost(s: seq<Octet>)
    requires s != []
    ensures Unpack(s) == s[0] * Pow256(|s| - 1) + Unpack(s[1..])
  {
    if |s| > 1 {
      var front := s[..|s| - 1];
      FirstWeighsMost(front);
      assert front[1..] == s[1..][..|s| - 2];
      TimesOctet(s[0], Pow256(|s| - 2));
    }
  }

  lemma TimesOctet(a: nat, b: nat)
    ensures (a * b) * 256 == a * (256 * b)
  {
  }

  /** A number in front of anything else is read back, and what follows it is
      what followed it. */
  lemma ReadNumber(n: nat, w: nat, rest: seq<Octet>)
    requires n < Pow256(w)
    ensures var s := Pack(n, w) + rest;
            |s| >= w && Unpack(s[..w]) == n && s[w..] == rest
  {
    UnpackPack(n, w);
    assert (Pack(n, w) + rest)[..w] == Pack(n, w);
  }

  // ----- Bits -----

  function Pow2(n: nat): (r: nat)
    ensures r > 0
  {
    if n == 0 then 1 else 2 * Pow2(n - 1)
  }

  /** Bit `i` is worth 2^i. */
  function FromBits(bits: seq<bool>): (n: nat)
    ensures n < Pow2(|bits|)
  {
    if bits == [] then 0 else (if bits[0] then 1 else 0) + 2 * FromBits(bits[1..])
  }

  /** `n & (1 << i) != 0`. */
  predicate Bit(n: nat, i: nat)
  {
    if i == 0 then n % 2 == 1 else Bit(n / 2, i - 1)
  }

  lemma Distribute(a: int, b: int, p: int)
    ensures (a + b) * p == a * p + b * p
  {
  }

  lemma AtLeast(n: int, p: nat)
    requires n > 0
    ensures n * p >= p
  {
    Distribute(1, n - 1, p);
  }

  lemma SameQuotient(p: nat, q: int, r: nat, k: int, m: nat)
    requires q * p + r == k * p + m && r < p && m < p
    ensures q == k && r == m
  {
    if q > k {
      Distribute(k, q - k, p);
      AtLeast(q - k, p);
    } else if q < k {
      Distribute(q, k - q, p);
      AtLeast(k - q, p);
    }
  }

  lemma Quotient(x: nat, p: nat, q: nat, r: nat)
    requires x == q * p + r && r < p
    ensures x / p == q && x % p == r
  {
    SameQuotient(p, q, r, x / p, x % p);
  }

  /** Adding a word round 2^64 and taking it away again. */
  /** The bit as a quotient. */
  lemma {:induction false} BitIsQuotient(n: nat, i: nat)
    ensures Bit(n, i) <==> n / Pow2(i) % 2 == 1
  {
    if i > 0 {
      BitIsQuotient(n / 2, i - 1);
      HalfThen(n, Pow2(i - 1));
    }
  }

  lemma HalfThen(n: nat, p: nat)
    requires p > 0
    ensures n / 2 / p == n / (2 * p)
  {
    var q, r := n / 2 / p, n / 2 % p;
    assert n / 2 == q * p + r;
    assert n == q * (2 * p) + (2 * r + n % 2);
    Quotient(n, 2 * p, q, 2 * r + n % 2);
  }

  lemma {:induction false} BitOfBits(bits: seq<bool>, i: nat)
    ensures Bit(FromBits(bits), i) <==> i < |bits| && bits[i]
  {
    if bits == [] {
      BitOfZero(i);
    } else if i > 0 {
      assert FromBits(bits) / 2 == FromBits(bits[1..]);
      BitOfBits(bits[1..], i - 1);
    }
  }

  lemma {:induction false} BitOfZero(i: nat)
    ensures !Bit(0, i)
  {
    if i > 0 {
      BitOfZero(i - 1);
    }
  }

  lemma {:induction false} BitBeyond(n: nat, m: nat, i: nat)
    requires n < Pow2(m) && m <= i
    ensures !Bit(n, i)
  {
    if m == 0 {
      BitOfZero(i);
    } else {
      BitBeyond(n / 2, m - 1, i - 1);
    }
  }

  /** Octet `k` of the result is `(n >> 8*k) & 0xFF`. */
  function LittleOctets(n: nat, count: nat): (s: seq<Octet>)
    ensures |s| == count
  {
    if count == 0 then [] else [n % 256] + LittleOctets(n / 256, count - 1)
  }

  function LittleValue(s: seq<Octet>): (n: nat)
    ensures n < Pow256(|s|)
  {
    if s == [] then 0 else s[0] + 256 * LittleValue(s[1..])
  }

  lemma {:induction false} LittleValueOfOctets(n: nat, count: nat)
    requires n < Pow256(count)
    ensures LittleValue(LittleOctets(n, count)) == n
  {
    if count > 0 {
      LittleValueOfOctets(n / 256, count - 1);
      var s := LittleOctets(n, count);
      assert s[1..] == LittleOctets(n / 256, count - 1);
    }
  }

  lemma {:induction false} LittleOctetsOfValue(s: seq<Octet>)
    ensures LittleOctets(LittleValue(s), |s|) == s
  {
    if s != [] {
      LittleOctetsOfValue(s[1..]);
      HighAndLow(LittleValue(s[1..]), s[0]);
    }
  }

  /** The other order: the last octet weighs most. */
  lemma {:induction false} LastWeighsMost(s: seq<Octet>)
    requires s != []
    ensures LittleValue(s) == LittleValue(s[..|s| - 1]) + s[|s| - 1] * Pow256(|s| - 1)
  {
    if |s| > 1 {
      LastWeighsMost(s[1..]);
      assert s[1..][..|s| - 2] == s[..|s| - 1][1..];
      TimesOctet(s[|s| - 1], Pow256(|s| - 2));
    }
  }

  /** Bits that are set only within the octets make a number that fits them. */
  lemma FlagsReach(bits: seq<bool>, octets: nat)
    requires forall i :: 0 <= i < |bits| && bits[i] ==> i < 8 * octets
    ensures FromBits(bits) < Pow256(octets)
  {
    BitsReach(bits, 8 * octets);
    Pow2Fits(8 * octets, octets);
  }

  lemma {:induction false} BitsReach(bits: seq<bool>, n: nat)
    requires forall i :: 0 <= i < |bits| && bits[i] ==> i < n
    ensures FromBits(bits) < Pow2(n)
  {
    if bits != [] {
      if n == 0 {
        assert forall i :: 0 <= i < |bits[1..]| ==> bits[1..][i] == bits[i + 1];
        BitsReach(bits[1..], 0);
      } else {
        assert forall i :: 0 <= i < |bits[1..]| ==> bits[1..][i] == bits[i + 1];
        BitsReach(bits[1..], n - 1);
      }
    }
  }

  lemma {:induction false} Pow2Fits(bits: nat, octets: nat)
    requires bits <= 8 * octets
    ensures Pow2(bits) <= Pow256(octets)
  {
    if octets == 0 {
    } else if bits < 8 {
      Pow2Small(bits);
      Pow2Fits(0, octets - 1);
    } else {
      Pow2Fits(bits - 8, octets - 1);
      Pow2Eight(bits - 8);
    }
  }

  lemma {:induction false} Pow2OfOctets(octets: nat)
    ensures Pow2(8 * octets) == Pow256(octets)
  {
    if octets > 0 {
      Pow2OfOctets(octets - 1);
      Pow2Eight(8 * (octets - 1));
    }
  }

  lemma Pow2Small(bits: nat)
    requires bits < 8
    ensures Pow2(bits) <= 256
  {
    Pow2Grows(bits, 7);
    assert Pow2(7) == 2 * Pow2(6) == 4 * Pow2(5) == 8 * Pow2(4) == 16 * Pow2(3) == 32 * Pow2(2) == 64 * Pow2(1);
  }

  lemma {:induction false} Pow2Grows(m: nat, n: nat)
    requires m <= n
    ensures Pow2(m) <= Pow2(n)
  {
    if m < n {
      Pow2Grows(m, n - 1);
    }
  }

  lemma Pow2Eight(n: nat)
    ensures Pow2(n + 8) == 256 * Pow2(n)
  {
    assert Pow2(n + 8) == 2 * Pow2(n + 7) == 4 * Pow2(n + 6) == 8 * Pow2(n + 5) == 16 * Pow2(n + 4);
    assert Pow2(n + 4) == 2 * Pow2(n + 3) == 4 * Pow2(n + 2) == 8 * Pow2(n + 1) == 16 * Pow2(n);
  }

  /** `n | 1 << i`. */
  function SetBit(n: nat, i: nat): nat
  {
    if Bit(n, i) then n else n + Pow2(i)
  }

  lemma {:induction false} BitOfSetBit(n: nat, i: nat, j: nat)
    ensures Bit(SetBit(n, i), j) <==> j == i || Bit(n, j)
  {
    if Bit(n, i) {
    } else if i == 0 {
      if j > 0 {
        assert (n + 1) / 2 == n / 2;
      }
    } else {
      assert (n + Pow2(i)) / 2 == n / 2 + Pow2(i - 1) && (n + Pow2(i)) % 2 == n % 2;
      if j > 0 {
        BitOfSetBit(n / 2, i - 1, j - 1);
      }
    }
  }

  lemma BitOfHigh(n: nat, j: nat)
    ensures Bit(n, j + 8) <==> Bit(n / 256, j)
  {
    var a := n / 2 / 2;
    var b := a / 2 / 2;
    var c := b / 2 / 2;
    assert Bit(n, j + 8) == Bit(n / 2, j + 7) == Bit(a, j + 6);
    assert Bit(a, j + 6) == Bit(a / 2, j + 5) == Bit(b, j + 4);
    assert Bit(b, j + 4) == Bit(b / 2, j + 3) == Bit(c, j + 2);
    assert Bit(c, j + 2) == Bit(c / 2, j + 1) == Bit(c / 2 / 2, j);
    assert c / 2 / 2 == n / 256;
  }

  lemma {:induction false} BitOfLow(high: nat, low: nat, m: nat, j: nat)
    requires j < m
    ensures Bit(high * Pow2(m) + low, j) <==> Bit(low, j)
  {
    var x := high * Pow2(m - 1);
    assert high * Pow2(m) == 2 * x;
    assert (2 * x + low) % 2 == low % 2 && (2 * x + low) / 2 == x + low / 2;
    if j > 0 {
      BitOfLow(high, low / 2, m - 1, j - 1);
    }
  }

  lemma {:induction false} BitOfLittle(n: nat, count: nat, k: nat, j: nat)
    requires k < count && j < 8
    ensures Bit(LittleOctets(n, count)[k], j) <==> Bit(n, 8 * k + j)
  {
    if k == 0 {
      assert Pow2(8) == 256 by { Pow2Eight(0); }
      BitOfLow(n / 256, n % 256, 8, j);
    } else {
      BitOfLittle(n / 256, count - 1, k - 1, j);
      BitOfHigh(n, 8 * (k - 1) + j);
    }
  }

  lemma {:induction false} PackReversesLittle(n: nat, w: nat, k: nat)
    requires k < w
    ensures Pack(n, w)[k] == LittleOctets(n, w)[w - 1 - k]
  {
    if k < w - 1 {
      PackReversesLittle(n / 256, w - 1, k);
    }
  }

  lemma {:induction false} SameBits(x: nat, y: nat, m: nat)
    requires x < Pow2(m) && y < Pow2(m)
    requires forall j {:trigger Bit(x, j)} :: 0 <= j < m ==> (Bit(x, j) <==> Bit(y, j))
    ensures x == y
  {
    if m > 0 {
      assert Bit(x, 0) <==> Bit(y, 0);
      forall j | 0 <= j < m - 1
        ensures Bit(x / 2, j) <==> Bit(y / 2, j)
      {
        assert Bit(x, j + 1) <==> Bit(y, j + 1);
      }
      SameBits(x / 2, y / 2, m - 1);
    }
  }

  /** `n & ~(1 << i)`. */
  function ClearBit(n: nat, i: nat): (r: nat)
    ensures r <= n
  {
    BitIsWorth(n, i);
    if Bit(n, i) then n - Pow2(i) else n
  }

  lemma {:induction false} BitIsWorth(n: nat, i: nat)
    ensures Bit(n, i) ==> n >= Pow2(i)
  {
    if i > 0 {
      BitIsWorth(n / 2, i - 1);
    }
  }

  lemma {:induction false} BitOfClearBit(n: nat, i: nat, j: nat)
    ensures Bit(ClearBit(n, i), j) <==> j != i && Bit(n, j)
  {
    BitIsWorth(n, i);
    if !Bit(n, i) {
    } else if i == 0 {
      if j > 0 {
        assert (n - 1) / 2 == n / 2;
      }
    } else {
      assert (n - Pow2(i)) / 2 == n / 2 - Pow2(i - 1) && (n - Pow2(i)) % 2 == n % 2;
      if j > 0 {
        BitOfClearBit(n / 2, i - 1, j - 1);
      }
    }
  }

  lemma SetBitFits(n: nat, i: nat, octets: nat)
    requires n < Pow256(octets) && i < 8 * octets
    ensures SetBit(n, i) < Pow256(octets)
  {
    Pow2OfOctets(octets);
    SetBitBelow(n, i, 8 * octets);
  }

  lemma {:induction false} SetBitBelow(n: nat, i: nat, m: nat)
    requires n < Pow2(m) && i < m
    ensures SetBit(n, i) < Pow2(m)
  {
    if i > 0 {
      SetBitBelow(n / 2, i - 1, m - 1);
      assert !Bit(n, i) ==> n + Pow2(i) == 2 * (n / 2 + Pow2(i - 1)) + n % 2;
    }
  }

  lemma {:induction false} OneMoreBit(p: seq<bool>, b: bool)
    ensures FromBits(p + [b]) == if b then SetBit(FromBits(p), |p|) else FromBits(p)
  {
    BitBeyond(FromBits(p), |p|, |p|);
    if p == [] {
      assert [b][1..] == [];
    } else {
      assert (p + [b])[1..] == p[1..] + [b];
      OneMoreBit(p[1..], b);
      BitBeyond(FromBits(p[1..]), |p| - 1, |p| - 1);
    }
  }
}

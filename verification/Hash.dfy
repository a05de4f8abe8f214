/** The 128-bit hash of QMF schemata (qpid/cpp/src/qmf/Hash.cpp). */
module Hash {
  import opened Octets

  const WORD: nat := 0x1_0000_0000_0000_0000
  const TOP: nat := 0x0100_0000_0000_0000      // 2^56: the weight of a word's top octet

  type Word = n: int | 0 <= n < 0x1_0000_0000_0000_0000

  datatype Words = Words(first: Word, second: Word)

  const SEED: Word := 0x5A5A_5A5A_5A5A_5A5A

  /** A char converted to uint64_t; where char is signed, the upper half of the
      characters is negative and wraps round. */
  function Widened(signed: bool, c: Octet): (w: Word)
    ensures w == (Digit(signed, c) + WORD) % WORD
  {
    if signed && c >= 128 then WORD - 256 + c else c
  }

  function Digit(signed: bool, c: Octet): int
  {
    if signed && c >= 128 then c - 256 else c
  }

  /** One character: both words move up one octet, each taking in the octet that
      the other lost, and the character is added to the first. */
  function Step(signed: bool, h: Words, c: Octet): Words
  {
    Words(((h.first * 256) % WORD + Widened(signed, c) + h.second / TOP) % WORD,
          (h.second * 256) % WORD + h.first / TOP)
  }

  function Updated(signed: bool, h: Words, s: seq<Octet>): Words
    decreases |s|
  {
    if s == [] then h else Updated(signed, Step(signed, h, s[0]), s[1..])
  }

  class Hasher {
    const signed: bool
    var first: Word
    var second: Word

    function State(): Words
      reads this
    {
      Words(first, second)
    }

    constructor (signed: bool)
      ensures this.signed == signed && State() == Words(SEED, SEED)
    {
      this.signed, first, second := signed, SEED, SEED;
    }

    method Update(s: seq<Octet>)
      modifies this
      ensures State() == Updated(signed, old(State()), s)
    {
      for idx := 0 to |s|
        invariant Updated(signed, State(), s[idx..]) == Updated(signed, old(State()), s)
      {
        assert s[idx..][0] == s[idx] && s[idx..][1..] == s[idx + 1..];
        var recycle := second / TOP;
        second := second * 256 % WORD;
        second := second + first / TOP;
        first := first * 256 % WORD;
        first := (first + Widened(signed, s[idx]) + recycle) % WORD;
      }
    }
  }

  // ----- Every input permutes the 2^128 states -----

  /** The state that a character led to `h` from. */
  function StepBack(signed: bool, h: Words, c: Octet): Words
  {
    var sum := (h.first + WORD - Widened(signed, c)) % WORD;
    Words(sum / 256 + h.second % 256 * TOP, h.second / 256 + sum % 256 * TOP)
  }

  lemma ShiftOctet(w: Word)
    ensures (w * 256) % WORD == w % TOP * 256
  {
    assert w == w / TOP * TOP + w % TOP;
  }

  lemma Wrapping(x: Word, w: Word)
    ensures ((x + w) % WORD + WORD - w) % WORD == x
    ensures ((x + WORD - w) % WORD + w) % WORD == x
  {
    assert (x + w) % WORD == if x + w < WORD then x + w else x + w - WORD;
    assert (x + WORD - w) % WORD == if x < w then x + WORD - w else x - w;
  }

  /** Splitting words into their top octet and the rest, and sums into their low
      octet and the rest, step and step back exchange the parts. */
  lemma StepIsInvertible(signed: bool, h: Words, c: Octet)
    ensures StepBack(signed, Step(signed, h, c), c) == h
    ensures Step(signed, StepBack(signed, h, c), c) == h
  {
    Forth(signed, h, c);
    Back(signed, h, c);
  }

  lemma Forth(signed: bool, h: Words, c: Octet)
    ensures StepBack(signed, Step(signed, h, c), c) == h
  {
    var w := Widened(signed, c);
    var x, a, y, b := h.first % TOP, h.first / TOP, h.second % TOP, h.second / TOP;
    ShiftOctet(h.first);
    ShiftOctet(h.second);
    Wrapping(x * 256 + b, w);
    Quotient(x * 256 + b, 256, x, b);
    Quotient(y * 256 + a, 256, y, a);
  }

  lemma Back(signed: bool, h: Words, c: Octet)
    ensures Step(signed, StepBack(signed, h, c), c) == h
  {
    var w := Widened(signed, c);
    var sum := (h.first + WORD - w) % WORD;
    var b := StepBack(signed, h, c);
    ShiftOctet(b.first);
    ShiftOctet(b.second);
    Quotient(b.first, TOP, h.second % 256, sum / 256);
    Quotient(b.second, TOP, sum % 256, h.second / 256);
    Wrapping(h.first, w);
  }

  function UpdatedBack(signed: bool, h: Words, s: seq<Octet>): Words
    decreases |s|
  {
    if s == [] then h else StepBack(signed, UpdatedBack(signed, h, s[1..]), s[0])
  }

  /** For a fixed input of any length, update is a bijection on the state. */
  lemma {:induction false} UpdateIsBijective(signed: bool, h: Words, s: seq<Octet>)
    ensures UpdatedBack(signed, Updated(signed, h, s), s) == h
    ensures Updated(signed, UpdatedBack(signed, h, s), s) == h
    decreases |s|
  {
    if s != [] {
      UpdateIsBijective(signed, Step(signed, h, s[0]), s[1..]);
      StepIsInvertible(signed, h, s[0]);
      UpdateIsBijective(signed, h, s[1..]);
      StepIsInvertible(signed, UpdatedBack(signed, h, s[1..]), s[0]);
    }
  }

  lemma {:induction false} UpdatesCompose(signed: bool, h: Words, s: seq<Octet>, t: seq<Octet>)
    ensures Updated(signed, h, s + t) == Updated(signed, Updated(signed, h, s), t)
    decreases |s|
  {
    if s == [] {
      assert [] + t == t;
    } else {
      assert (s + t)[1..] == s[1..] + t;
      UpdatesCompose(signed, Step(signed, h, s[0]), s[1..], t);
    }
  }

  /** A common suffix neither makes nor undoes a collision. */
  lemma CommonSuffix(signed: bool, h: Words, s: seq<Octet>, t: seq<Octet>, suffix: seq<Octet>)
    ensures Updated(signed, h, s + suffix) == Updated(signed, h, t + suffix)
            <==> Updated(signed, h, s) == Updated(signed, h, t)
  {
    UpdatesCompose(signed, h, s, suffix);
    UpdatesCompose(signed, h, t, suffix);
    UpdateIsBijective(signed, Updated(signed, h, s), suffix);
    UpdateIsBijective(signed, Updated(signed, h, t), suffix);
  }

  // ----- Short differences are never lost -----

  lemma {:induction false} PowersMultiply(i: nat, j: nat)
    ensures Pow256(i) * Pow256(j) == Pow256(i + j)
  {
    if i > 0 {
      PowersMultiply(i - 1, j);
      assert 256 * Pow256(i - 1) * Pow256(j) == 256 * (Pow256(i - 1) * Pow256(j));
    }
  }

  lemma WordIsEightOctets()
    ensures Pow256(7) == TOP && Pow256(8) == WORD
  {
    assert Pow256(4) == 256 * Pow256(3) && Pow256(3) == 256 * Pow256(2) && Pow256(2) == 256 * Pow256(1);
    assert Pow256(1) == 256 * Pow256(0);
    assert Pow256(8) == 256 * Pow256(7) && Pow256(7) == 256 * Pow256(6);
    assert Pow256(6) == 256 * Pow256(5) && Pow256(5) == 256 * Pow256(4);
  }

  /** A word whose part above its low `i` octets is `q` loses the top octet of
      `q`, and once moved up has the rest of `q` above its low `i + 1` octets. */
  lemma MoveUp(x: Word, i: nat, q: nat, a: Octet)
    requires i < 8 && x / Pow256(i) == q
    ensures x / TOP == q / Pow256(7 - i)
    ensures (x % TOP * 256 + a) / Pow256(i + 1) == q % Pow256(7 - i)
  {
    var low, high := Pow256(i), Pow256(7 - i);
    PowersMultiply(i, 7 - i);
    WordIsEightOctets();
    Regroup(x, low, high, q, x % low);
    var t, r := q / high, q % high;
    var m := x % low;
    Quotient(x, TOP, t, r * low + m);
    Scale(r, low, m, a);
    Quotient((r * low + m) * 256 + a, 256 * low, r, m * 256 + a);
  }

  lemma Scale(r: nat, low: nat, m: nat, a: nat)
    ensures (r * low + m) * 256 + a == r * (256 * low) + (m * 256 + a)
  {
    Reorder(r, 256, low);
  }

  lemma Regroup(x: nat, low: nat, high: nat, q: nat, rest: nat)
    requires x == low * q + rest && rest < low && high > 0
    ensures x == q / high * (low * high) + (q % high * low + rest)
    ensures q % high * low + rest < low * high
  {
    var t, r := q / high, q % high;
    Distribute(t * high, r, low);
    Reorder(t, high, low);
    Distribute(r, high - r, low);
    AtLeast(high - r, low);
  }

  lemma Reorder(t: nat, high: nat, low: nat)
    ensures t * high * low == t * (low * high)
  {
  }

  lemma {:induction false} PowersGrow(i: nat, j: nat)
    requires i <= j
    ensures Pow256(i) <= Pow256(j)
  {
    if i < j {
      PowersGrow(i, j - 1);
    }
  }

  /** The step multiplies the difference of the first words by 256 and adds that
      of the characters, when both take in the same octet. */
  lemma Congruent(signed: bool, g: Words, h: Words, x: Octet, y: Octet, d: int)
    requires (g.first - h.first - d) % WORD == 0 && g.second / TOP == h.second / TOP
    ensures (Step(signed, g, x).first - Step(signed, h, y).first
             - (256 * d + Digit(signed, x) - Digit(signed, y))) % WORD == 0
  {
    var i := StepWraps(signed, g, x);
    var j := StepWraps(signed, h, y);
    var k := (g.first - h.first - d) / WORD;
    Multiple(256 * k + i - j,
             Step(signed, g, x).first - Step(signed, h, y).first - (256 * d + Digit(signed, x) - Digit(signed, y)));
  }

  lemma Multiple(k: int, n: int)
    requires n == k * WORD
    ensures n % WORD == 0
  {
  }

  lemma StepWraps(signed: bool, h: Words, c: Octet) returns (k: int)
    ensures Step(signed, h, c).first == h.first * 256 + Digit(signed, c) + h.second / TOP + k * WORD
  {
    var low := (h.first * 256) % WORD;
    var sum := low + Widened(signed, c) + h.second / TOP;
    k := -((h.first * 256) / WORD) - sum / WORD + (if signed && c >= 128 then 1 else 0);
  }

  /** After `i` unlike characters: the first words differ by `d`, a number of `i`
      octets, up to a multiple of 2^64; above their low `i` octets the second words
      agree. */
  ghost predicate Apart(g: Words, h: Words, i: nat, d: int)
  {
    && d != 0 && 0 < d + Pow256(i) && d < Pow256(i)
    && (g.first - h.first - d) % WORD == 0
    && g.second / Pow256(i) == h.second / Pow256(i)
  }

  lemma ApartIsUnequal(g: Words, h: Words, i: nat, d: int)
    requires Apart(g, h, i, d) && i <= 8
    ensures g != h
  {
    PowersGrow(i, 8);
    WordIsEightOctets();
    if g == h {
      assert false;
    }
  }

  lemma StaysApart(signed: bool, g: Words, h: Words, x: Octet, y: Octet, i: nat, d: int)
    requires Apart(g, h, i, d) && i < 8
    ensures Apart(Step(signed, g, x), Step(signed, h, y), i + 1, 256 * d + Digit(signed, x) - Digit(signed, y))
  {
    ShiftOctet(g.second);
    ShiftOctet(h.second);
    var q := g.second / Pow256(i);
    MoveUp(g.second, i, q, g.first / TOP);
    MoveUp(h.second, i, q, h.first / TOP);
    Congruent(signed, g, h, x, y, d);
  }

  lemma {:induction false} DifferenceSurvives(signed: bool, g: Words, h: Words, s: seq<Octet>, t: seq<Octet>, i: nat,
      d: int)
    requires |s| == |t| && i + |s| <= 8 && Apart(g, h, i, d)
    ensures Updated(signed, g, s) != Updated(signed, h, t)
    decreases |s|
  {
    if s == [] {
      ApartIsUnequal(g, h, i, d);
    } else {
      var x, y := s[0], t[0];
      StaysApart(signed, g, h, x, y, i, d);
      DifferenceSurvives(signed, Step(signed, g, x), Step(signed, h, y), s[1..], t[1..], i + 1,
                         256 * d + Digit(signed, x) - Digit(signed, y));
    }
  }

  /** Different inputs of the same length, up to eight characters, never collide. */
  lemma {:induction false} StretchMatters(signed: bool, h: Words, s: seq<Octet>, t: seq<Octet>)
    requires |s| == |t| <= 8 && s != t
    ensures Updated(signed, h, s) != Updated(signed, h, t)
    decreases |s|
  {
    var x, y := s[0], t[0];
    if x == y {
      assert s == [x] + s[1..] && t == [y] + t[1..];
      StretchMatters(signed, Step(signed, h, x), s[1..], t[1..]);
    } else {
      var d := Digit(signed, x) - Digit(signed, y);
      Congruent(signed, h, h, x, y, 0);
      assert Pow256(1) == 256 * Pow256(0) && Pow256(0) == 1;
      MoveUp(h.second, 0, h.second, h.first / TOP);
      ShiftOctet(h.second);
      DifferenceSurvives(signed, Step(signed, h, x), Step(signed, h, y), s[1..], t[1..], 1, d);
    }
  }

  /** Inputs that differ in one character, or in several within a stretch of eight,
      never collide, whatever precedes and follows them. */
  lemma ChangesAlwaysShow(signed: bool, h: Words, prefix: seq<Octet>, s: seq<Octet>, t: seq<Octet>, suffix: seq<Octet>)
    requires |s| == |t| <= 8 && s != t
    ensures Updated(signed, h, prefix + s + suffix) != Updated(signed, h, prefix + t + suffix)
  {
    CommonSuffix(signed, h, prefix + s, prefix + t, suffix);
    UpdatesCompose(signed, h, prefix, s);
    UpdatesCompose(signed, h, prefix, t);
    StretchMatters(signed, Updated(signed, h, prefix), s, t);
  }

  // ----- The step as a rotation, and known values -----

  /** The two words as one number of 128 bits. */
  function Joint(h: Words): nat
  {
    h.second * WORD + h.first
  }

  /** A number of 128 bits, rotated to the left by one octet. */
  function Rotated(n: nat): nat
  {
    n * 256 % (WORD * WORD) + n / (WORD * TOP)
  }

  lemma LowAndHigh(q: nat, r: nat)
    requires r < WORD
    ensures (q * WORD + r) / WORD == q && (q * WORD + r) % WORD == r
  {
    Quotient(q * WORD + r, WORD, q, r);
  }

  lemma TopOctet(h: Words)
    ensures Joint(h) / (WORD * TOP) == h.second / TOP
  {
    var q, r := h.second / TOP, h.second % TOP;
    assert h.second == q * TOP + r;
    assert r <= TOP - 1;
    Distribute(q * TOP, r, WORD);
    assert r * WORD + h.first < WORD * TOP;
    assert q * TOP * WORD == q * (WORD * TOP);
    Quotient(Joint(h), WORD * TOP, q, r * WORD + h.first);
  }

  /** What is left of the number when its top octet is shifted out. */
  lemma ShiftedOut(h: Words)
    ensures Joint(h) * 256 % (WORD * WORD) == (h.second * 256 % WORD + h.first / TOP) * WORD + h.first * 256 % WORD
    ensures h.second * 256 % WORD + h.first / TOP < WORD
  {
    var a, b := h.second * 256, h.first * 256;
    ShiftOctet(h.first);
    ShiftOctet(h.second);
    assert b == h.first / TOP * WORD + b % WORD;
    assert a == h.second / TOP * WORD + a % WORD;
    var low := (a % WORD + h.first / TOP) * WORD + b % WORD;
    Distribute(a % WORD, h.first / TOP, WORD);
    Distribute(h.second / TOP * WORD, a % WORD, WORD);
    assert Joint(h) * 256 == a * WORD + b;
    assert Joint(h) * 256 == h.second / TOP * WORD * WORD + low;
    assert h.second / TOP * WORD * WORD == h.second / TOP * (WORD * WORD);
    assert a % WORD + h.first / TOP <= WORD - 1;
    Quotient(Joint(h) * 256, WORD * WORD, h.second / TOP, low);
  }

  /** One character: the 128 bits are rotated by one octet, then the character is added
      to the lower word alone. */
  lemma StepRotates(signed: bool, h: Words, c: Octet)
    ensures var r := Rotated(Joint(h));
            && Step(signed, h, c).second == r / WORD
            && Step(signed, h, c).first == (r % WORD + (if signed && c >= 128 then c - 256 else c)) % WORD
  {
    ShiftedOut(h);
    TopOctet(h);
    ShiftOctet(h.first);
    var high, low := h.second * 256 % WORD + h.first / TOP, h.first * 256 % WORD + h.second / TOP;
    assert low < WORD;
    LowAndHigh(high, low);
    assert Rotated(Joint(h)) == high * WORD + low;
    Wraps(low, Digit(signed, c));
  }

  lemma Wraps(n: nat, d: int)
    requires -128 <= d < 256
    ensures (n + (d + WORD) % WORD) % WORD == (n + d) % WORD
  {
  }

  /** The hash of nothing, of the letter A, and of one character of value 255. */
  lemma KnownValues(signed: bool)
    ensures Updated(signed, Words(SEED, SEED), []) == Words(0x5A5A_5A5A_5A5A_5A5A, 0x5A5A_5A5A_5A5A_5A5A)
    ensures Updated(signed, Words(SEED, SEED), [65]) == Words(0x5A5A_5A5A_5A5A_5A9B, 0x5A5A_5A5A_5A5A_5A5A)
    ensures Updated(signed, Words(SEED, SEED), [255])
            == Words(if signed then 0x5A5A_5A5A_5A5A_5A59 else 0x5A5A_5A5A_5A5A_5B59, 0x5A5A_5A5A_5A5A_5A5A)
  {
    assert [65][1..] == [] && [255][1..] == [];
  }
}

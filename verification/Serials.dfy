/** 32-bit wrapping sequence numbers and closed ranges of them
    (qpid/python/qpid/datatypes.py). */
module Serials {

  const MODULUS: int := 0x1_0000_0000
  const HALF: int := 0x8000_0000

  /** The value field of a Serial, after masking. */
  type Serial = v: int | 0 <= v < MODULUS

  /** `value & 0xFFFFFFFF`, for negative values too. */
  function Mask(value: int): (s: Serial)
  {
    value % MODULUS
  }

  function Plus(s: Serial, n: int): Serial
  {
    Mask(s + n)
  }

  /** The difference of two values, masked to 32 bits. */
  function Difference(a: Serial, b: Serial): Serial
  {
    if a >= b then a - b else a - b + MODULUS
  }

  lemma DifferenceIsMasked(a: Serial, b: Serial)
    ensures Difference(a, b) == Mask(a - b)
  {
  }

  /** `Serial.__cmp__`: bit 31 of the difference is the sign, the rest the
      magnitude. */
  function Compare(a: Serial, b: Serial): int
  {
    var delta := Difference(a, b);
    if delta >= HALF then -(delta - HALF) else delta
  }

  function Min(a: Serial, b: Serial): Serial
  {
    if Compare(b, a) < 0 then b else a
  }

  function Max(a: Serial, b: Serial): Serial
  {
    if Compare(b, a) > 0 then b else a
  }

  /** How many steps `s` lies after `base`, going upwards and wrapping. */
  function Offset(base: Serial, s: Serial): Serial
  {
    Difference(s, base)
  }

  /** RFC 1982 section 3.2 defines "less than" for serial numbers of 32 bits. */
  predicate PrecedesRfc1982(a: Serial, b: Serial)
  {
    || (a < b && b - a < HALF)
    || (a > b && a - b > HALF)
  }

  /** The comparison agrees with RFC 1982 on every pair; it reports equality for
      equal serials and for the pairs half the space apart, which the standard
      leaves undefined. */
  lemma CompareMeetsRfc1982(a: Serial, b: Serial)
    ensures Compare(a, b) < 0 <==> PrecedesRfc1982(a, b)
    ensures Compare(a, b) > 0 <==> PrecedesRfc1982(b, a)
    ensures Compare(a, b) == 0 <==> a == b || Offset(a, b) == HALF
  {
  }

  /** Inside any window shorter than half the space, the comparison is the
      order of distances from the window's start, so it is a total order. */
  lemma CompareOrdersWindow(base: Serial, a: Serial, b: Serial)
    requires Offset(base, a) < HALF && Offset(base, b) < HALF
    ensures Compare(a, b) < 0 <==> Offset(base, a) < Offset(base, b)
    ensures Compare(a, b) == 0 <==> a == b
    ensures Compare(a, b) > 0 <==> Offset(base, a) > Offset(base, b)
    ensures a == b <==> Offset(base, a) == Offset(base, b)
  {
  }

  /** RFC 1982 section 3.1: adding up to 2^31-1 gives a later serial. */
  lemma PlusIsLater(s: Serial, n: int)
    requires 0 < n < HALF
    ensures Compare(s, Plus(s, n)) < 0 && Compare(Plus(s, n), s) > 0
    ensures Plus(Plus(s, n), -n) == s
  {
  }

  /** `s - 1` and `s + 1`, spelled without a division. */
  function Previous(s: Serial): Serial
  {
    if s == 0 then MODULUS - 1 else s - 1
  }

  function Next(s: Serial): Serial
  {
    if s == MODULUS - 1 then 0 else s + 1
  }

  lemma NeighboursAreSums(s: Serial)
    ensures Previous(s) == Plus(s, -1) && Next(s) == Plus(s, 1)
  {
  }

  datatype Range = Range(lower: Serial, upper: Serial)

  predicate Contains(r: Range, n: Serial)
  {
    Compare(r.lower, n) <= 0 && Compare(n, r.upper) <= 0
  }

  predicate Touches(a: Range, b: Range)
  {
    || Contains(b, Previous(a.lower))
    || Contains(b, Next(a.upper))
    || Contains(a, Previous(b.lower))
    || Contains(a, Next(b.upper))
    || Contains(b, a.lower)
    || Contains(b, a.upper)
    || Contains(a, b.lower)
    || Contains(a, b.upper)
  }

  function Span(a: Range, b: Range): Range
  {
    Range(Min(a.lower, b.lower), Max(a.upper, b.upper))
  }

  /** Exactly which serials a range contains, for every range and every serial:
      those from lower up to upper, except that a single-element range also
      contains the serial half the space away, and a range longer than half the
      space contains only its middle. */
  lemma ContainsExactly(r: Range, n: Serial)
    ensures var len, d := Offset(r.lower, r.upper), Offset(r.lower, n);
            Contains(r, n) <==>
            if len == 0 then d == 0 || d == HALF
            else if len <= HALF then d <= len
            else len - HALF <= d <= HALF
  {
  }

  /** A range from lower up to upper that lies among the 2^31-1 serials that
      start at `base`. */
  predicate Proper(base: Serial, r: Range)
  {
    Offset(base, r.lower) <= Offset(base, r.upper) <= HALF - 2
  }

  /** Membership measured from the window's start. */
  predicate Covers(base: Serial, r: Range, offset: int)
  {
    Offset(base, r.lower) <= offset <= Offset(base, r.upper)
  }

  lemma ContainsInWindow(base: Serial, r: Range, n: Serial)
    requires Proper(base, r) && Offset(base, n) < HALF
    ensures Contains(r, n) <==> Covers(base, r, Offset(base, n))
  {
  }

  /** The eight-way test holds exactly when the two ranges overlap or are
      adjacent. */
  lemma TouchesInWindow(base: Serial, a: Range, b: Range)
    requires Proper(base, a) && Proper(base, b)
    ensures Touches(a, b) <==>
            && Offset(base, a.lower) <= Offset(base, b.upper) + 1
            && Offset(base, b.lower) <= Offset(base, a.upper) + 1
  {
    var al, au := Offset(base, a.lower), Offset(base, a.upper);
    var bl, bu := Offset(base, b.lower), Offset(base, b.upper);
    ContainsAround(base, b, a.lower);
    ContainsAround(base, b, a.upper);
    ContainsAround(base, a, b.lower);
    ContainsAround(base, a, b.upper);
  }

  /** One step before or after a serial of the window is still judged right. */
  lemma ContainsAround(base: Serial, r: Range, s: Serial)
    requires Proper(base, r) && Offset(base, s) <= HALF - 2
    ensures Contains(r, s) <==> Covers(base, r, Offset(base, s))
    ensures Contains(r, Next(s)) <==> Covers(base, r, Offset(base, s) + 1)
    ensures Contains(r, Previous(s)) <==> Covers(base, r, Offset(base, s) - 1)
  {
  }

  lemma SpanInWindow(base: Serial, a: Range, b: Range)
    requires Proper(base, a) && Proper(base, b)
    ensures Proper(base, Span(a, b))
    ensures Touches(a, b) ==>
              forall o :: Covers(base, Span(a, b), o) <==> Covers(base, a, o) || Covers(base, b, o)
  {
    CompareOrdersWindow(base, a.lower, b.lower);
    CompareOrdersWindow(base, a.upper, b.upper);
    TouchesInWindow(base, a, b);
  }
}

/**
 The Mersenne Twister of Offline 3/xv6/pseudorandom.h: srand, GenerateNumbers, rand and randUpTo, on
 32-bit words. GenerateNumbers overwrites its array in place in three segments.
 */
module Twister {
  import Lottery

  const SIZE := 624
  const PERIOD := 397
  const DIFF := SIZE - PERIOD
  const MAGIC: bv32 := 0x9908b0df

  /** The word made of the top bit of one element and the low bits of the next. */
  function Glue(a: bv32, b: bv32): bv32 {
    (0x80000000 & a) | (0x7FFFFFFF & b)
  }

  /** The recurrence's step from two words. */
  function Twist(a: bv32, b: bv32): bv32 {
    Next(Glue(a, b), if Glue(a, b) & 1 == 1 then MAGIC else 0)
  }

  function Next(y: bv32, x: bv32): bv32 { (y >> 1) ^ x }

  /** C's (int)x >> 31: the sign bit spread over the word. */
  function SignOf(x: bv32): bv32 {
    if x < 0x80000000 then 0 else 0xFFFFFFFF
  }

  /** (y >> 1) ^ ((((int)y << 31) >> 31) & MAGIC) */
  function Shifted(y: bv32): bv32 {
    Next(y, SignOf(y << 31) & MAGIC)
  }

  /** The top bit comes from the first word and the others from the second. */
  lemma GlueIs(a: bv32, b: bv32)
    ensures Glue(a, b) >= 0x80000000 <==> a >= 0x80000000
    ensures Glue(a, b) << 1 == b << 1
  {
  }

  /** The code's two shifts spread the low bit, as the recurrence wants it. */
  lemma ShiftedIs(a: bv32, b: bv32)
    ensures Shifted(Glue(a, b)) == Twist(a, b)
  {
    hide Glue, Next, SignOf;
    LowBit(Glue(a, b));
  }

  lemma LowBit(y: bv32)
    ensures SignOf(y << 31) & MAGIC == if y & 1 == 1 then MAGIC else 0
  {
  }

  function Temper(x: bv32): bv32 {
    Mix18(Mix15(Mix7(Mix11(x))))
  }

  function Mix11(x: bv32): bv32 { x ^ (x >> 11) }

  function Mix7(x: bv32): bv32 { x ^ ((x << 7) & 0x9d2c5680) }

  function Mix15(x: bv32): bv32 { x ^ ((x << 15) & 0xefc60000) }

  function Mix18(x: bv32): bv32 { x ^ (x >> 18) }

  /** srand's recurrence. */
  function Seeded(x: bv32, i: bv32): bv32 {
    Plus(Scaled(Mix30(x)), i)
  }

  function Plus(x: bv32, i: bv32): bv32 { x + i }

  function Scaled(x: bv32): bv32 { 0x6c078965 * x }

  function Mix30(x: bv32): bv32 { x ^ (x >> 30) }

  /** Element `i` of the recurrence that the generator defines for a seed. */
  ghost function Element(seed: bv32, i: nat): bv32
    decreases i
  {
    if i == 0 then seed
    else if i < SIZE then Seeded(Element(seed, i - 1), i as bv32)
    else Element(seed, i - SIZE + PERIOD) ^ Twist(Element(seed, i - SIZE), Element(seed, i - SIZE + 1))
  }

  lemma Recurrence(seed: bv32, i: nat)
    ensures Element(seed, i + SIZE) == Element(seed, i + PERIOD) ^ Twist(Element(seed, i), Element(seed, i + 1))
  {
  }

  /** The four steps of Temper can be taken back. */
  function Untemper(y: bv32): bv32 {
    Unmix11(Unmix7(Mix15(Mix18(y))))
  }

  function Unmix11(y: bv32): bv32 { y ^ (y >> 11) ^ (y >> 22) }

  function Unmix7(y: bv32): bv32 {
    var b := y ^ ((y << 7) & 0x9d2c5680);
    var c := y ^ ((b << 7) & 0x9d2c5680);
    y ^ ((((y ^ ((c << 7) & 0x9d2c5680)) << 7)) & 0x9d2c5680)
  }

  lemma Back11(x: bv32)
    ensures Unmix11(Mix11(x)) == x
  {
    Shifted11(x);
    assert Mix11(x) == x ^ (x >> 11);
  }

  lemma Shifted11(x: bv32)
    ensures Unmix11(x ^ (x >> 11)) == x
  {
  }

  lemma Back7(x: bv32)
    ensures Unmix7(Mix7(x)) == x
  {
    Shifted7(x);
    assert Mix7(x) == x ^ ((x << 7) & 0x9d2c5680);
  }

  lemma Shifted7(x: bv32)
    ensures Unmix7(x ^ ((x << 7) & 0x9d2c5680)) == x
  {
  }

  lemma Back15(x: bv32)
    ensures Mix15(Mix15(x)) == x
  {
    Shifted15(x);
    assert Mix15(x) == x ^ ((x << 15) & 0xefc60000);
  }

  lemma Shifted15(x: bv32)
    ensures Mix15(x ^ ((x << 15) & 0xefc60000)) == x
  {
  }

  lemma Back18(x: bv32)
    ensures Mix18(Mix18(x)) == x
  {
    Shifted18(x);
    assert Mix18(x) == x ^ (x >> 18);
  }

  lemma Shifted18(x: bv32)
    ensures Mix18(x ^ (x >> 18)) == x
  {
  }

  /** So every word is the tempering of just one word. */
  lemma TemperBack(x: bv32)
    ensures Untemper(Temper(x)) == x
  {
    hide Mix11, Mix7, Mix15, Mix18, Unmix11, Unmix7;
    Back11(x);
    Back7(Mix11(x));
    Back15(Mix7(Mix11(x)));
    Back18(Mix15(Mix7(Mix11(x))));
  }

  /** Twist and srand's recurrence lose nothing either. */
  lemma TwistOneToOne(a: bv32, b: bv32, c: bv32, d: bv32)
    ensures Twist(a, b) == Twist(c, d) ==> Glue(a, b) == Glue(c, d)
  {
  }

  lemma GlueParts(a: bv32, b: bv32, c: bv32, d: bv32, e: bv32, f: bv32)
    requires Glue(a, b) == Glue(c, d) && Glue(b, e) == Glue(d, f)
    ensures b == d
  {
  }

  function Unseeded(y: bv32, i: bv32): bv32 {
    Mix30(Unscaled(Minus(y, i)))
  }

  function Unscaled(y: bv32): bv32 { 0x9638806d * y }

  function Minus(y: bv32, i: bv32): bv32 { y - i }

  lemma SeededBack(x: bv32, i: bv32)
    ensures Unseeded(Seeded(x, i), i) == x
  {
    hide Mix30, Scaled, Unscaled, Plus, Minus;
    PlusMinus(Scaled(Mix30(x)), i);
    Factor(Mix30(x));
    Back30(x);
  }

  lemma Back30(x: bv32)
    ensures Mix30(Mix30(x)) == x
  {
    Shifted30(x);
    assert Mix30(x) == x ^ (x >> 30);
  }

  lemma Shifted30(x: bv32)
    ensures Mix30(x ^ (x >> 30)) == x
  {
  }

  lemma Factor(x: bv32)
    ensures Unscaled(Scaled(x)) == x
  {
    Factors(x);
    assert Scaled(x) == 0x6c078965 * x;
  }

  lemma Factors(x: bv32)
    ensures Unscaled(0x6c078965 * x) == x
  {
  }

  lemma PlusMinus(x: bv32, i: bv32)
    ensures Minus(Plus(x, i), i) == x
  {
    Difference(x, i);
    assert Plus(x, i) == x + i;
  }

  lemma Difference(x: bv32, i: bv32)
    ensures Minus(x + i, i) == x
  {
  }

  /** Sequences that agree on SIZE elements and more agree on the element before, unless it is the seed, ... */
  lemma {:induction false} SameBefore(s: bv32, t: bv32, i: nat)
    requires i >= 1 && forall j :: i < j <= i + SIZE ==> Element(s, j) == Element(t, j)
    ensures Element(s, i) == Element(t, i)
  {
    hide Element, Twist, Glue;
    Recurrence(s, i);
    Recurrence(t, i);
    Recurrence(s, i - 1);
    Recurrence(t, i - 1);
    SameXor(Element(s, i + PERIOD), Twist(Element(s, i), Element(s, i + 1)), Twist(Element(t, i), Element(t, i + 1)));
    TwistOneToOne(Element(s, i), Element(s, i + 1), Element(t, i), Element(t, i + 1));
    SameXor(Element(s, i - 1 + PERIOD), Twist(Element(s, i - 1), Element(s, i)), Twist(Element(t, i - 1), Element(t, i)));
    TwistOneToOne(Element(s, i - 1), Element(s, i), Element(t, i - 1), Element(t, i));
    GlueParts(Element(s, i - 1), Element(s, i), Element(t, i - 1), Element(t, i), Element(s, i + 1), Element(t, i + 1));
  }

  lemma SameXor(a: bv32, b: bv32, c: bv32)
    ensures a ^ b == a ^ c ==> b == c
  {
  }

  lemma {:induction false} SameFrom(s: bv32, t: bv32, base: nat)
    requires base >= 1 && forall j :: base <= j < base + SIZE ==> Element(s, j) == Element(t, j)
    ensures s == t
    decreases base
  {
    hide Element, Unseeded, Seeded;
    if base > 1 {
      SameBefore(s, t, base - 1);
      SameFrom(s, t, base - 1);
    } else {
      ElementOne(s);
      ElementOne(t);
      SeededBack(s, 1);
      SeededBack(t, 1);
    }
  }

  lemma {:induction false} ElementOne(seed: bv32)
    ensures Element(seed, 1) == Seeded(seed, 1)
  {
  }

  /** ... and so the seed is the same: SIZE outputs in a row, wherever they are, come from one seed alone. */
  lemma {:induction false} SeedsApart(s: bv32, t: bv32, base: nat)
    requires base >= SIZE && forall j :: base <= j < base + SIZE ==> Temper(Element(s, j)) == Temper(Element(t, j))
    ensures s == t
  {
    hide Element, Temper, Untemper;
    forall j | base <= j < base + SIZE
      ensures Element(s, j) == Element(t, j)
    {
      TemperBack(Element(s, j));
      TemperBack(Element(t, j));
    }
    SameFrom(s, t, base);
  }

  /** (int)y, then negated if negative: the smallest int stays as it is. */
  function AbsInt(y: bv32): (r: int)
    ensures y != 0x80000000 ==> 0 <= r < 0x8000_0000
    ensures y == 0x80000000 <==> r < 0
    ensures r < 0 ==> r == -0x8000_0000
  {
    var v := if y < 0x80000000 then y as int else y as int - 0x1_0000_0000;
    if v < 0 && v != -0x8000_0000 then -v else v
  }

  /** Positions lo .. hi - 1 hold the elements from `base` on. */
  ghost predicate Holds(mt: seq<bv32>, seed: bv32, base: nat, lo: int, hi: int) {
    0 <= lo <= hi <= |mt| && forall j :: lo <= j < hi ==> mt[j] == Element(seed, base + j)
  }

  /** Halfway through GenerateNumbers: the first `i` elements are the next batch, the others still the last. */
  ghost predicate Halfway(mt: seq<bv32>, seed: bv32, base: nat, i: int) {
    |mt| == SIZE && Holds(mt, seed, base + SIZE, 0, i) && Holds(mt, seed, base, i, SIZE)
  }

  /** One UNROLL: whichever segment it is in, the array holds the element PERIOD further on. */
  lemma Unroll(mt: seq<bv32>, seed: bv32, base: nat, i: int, far: int)
    requires 0 <= i < SIZE - 1 && Halfway(mt, seed, base, i)
    requires far == if i < DIFF then i + PERIOD else i - DIFF
    ensures 0 <= far < SIZE && Halfway(mt[i := mt[far] ^ Twist(mt[i], mt[i + 1])], seed, base, i + 1)
  {
    hide Twist, Element;
    Recurrence(seed, base + i);
    assert mt[far] == Element(seed, base + i + PERIOD);
    assert base + i + SIZE == base + SIZE + i;
  }

  /** The last element is glued from the last word of the old batch and the first word of the new one. */
  lemma UnrollLast(mt: seq<bv32>, seed: bv32, base: nat)
    requires Halfway(mt, seed, base, SIZE - 1)
    ensures Holds(mt[SIZE - 1 := mt[PERIOD - 1] ^ Twist(mt[SIZE - 1], mt[0])], seed, base + SIZE, 0, SIZE)
  {
    hide Twist, Element;
    Recurrence(seed, base + SIZE - 1);
    assert mt[0] == Element(seed, base + SIZE + 0);
    assert mt[PERIOD - 1] == Element(seed, base + SIZE + (PERIOD - 1));
  }

  class Generator {
    const MT: array<bv32>
    const tempered: array<bv32>
    var index: int
    ghost var seed: bv32
    ghost var base: nat

    /** The array holds a whole batch; unless it is the seeds, it is tempered. */
    ghost predicate Valid()
      reads this, MT, tempered
    {
      && MT.Length == SIZE && tempered.Length == SIZE && MT != tempered && 0 <= index <= SIZE
      && Holds(MT[..], seed, base, 0, SIZE)
      && (if base == 0 then index == SIZE else base >= SIZE && forall j :: 0 <= j < SIZE ==> tempered[j] == Temper(MT[j]))
    }

    /** How many words rand has consumed since srand. */
    ghost function Consumed(): (k: int)
      reads this, MT, tempered
      requires Valid()
      ensures k >= 0
    {
      base - SIZE + index
    }

    constructor (newSeed: bv32)
      ensures Valid() && seed == newSeed && Consumed() == 0 && fresh(MT) && fresh(tempered)
    {
      MT, tempered := new bv32[SIZE], new bv32[SIZE];
      seed, base, index := newSeed, 0, SIZE;
      new;
      Srand(newSeed);
    }

    /** srand */
    method Srand(newSeed: bv32)
      requires MT.Length == SIZE && tempered.Length == SIZE && MT != tempered
      modifies this, MT
      ensures Valid() && seed == newSeed && Consumed() == 0
    {
      hide Seeded;
      seed, base := newSeed, 0;
      MT[0] := newSeed;
      index := SIZE;
      var i := 1;
      while i < SIZE
        invariant 1 <= i <= SIZE && Holds(MT[..], seed, 0, 0, i)
        modifies MT
      {
        assert MT[i - 1] == MT[..][i - 1];
        MT[i] := Seeded(MT[i - 1], i as bv32);
        i := i + 1;
      }
    }

    /** The UNROLL macro. */
    method UnrollAt(i: int, far: int)
      requires MT.Length == SIZE && 0 <= i < SIZE - 1 && Halfway(MT[..], seed, base, i)
      requires far == if i < DIFF then i + PERIOD else i - DIFF
      modifies MT
      ensures Halfway(MT[..], seed, base, i + 1)
    {
      hide Twist, Halfway, Shifted, Glue;
      ghost var mt := MT[..];
      Unroll(mt, seed, base, i, far);
      ShiftedIs(MT[i], MT[i + 1]);
      MT[i] := MT[far] ^ Shifted(Glue(MT[i], MT[i + 1]));
      assert MT[..] == mt[i := mt[far] ^ Twist(mt[i], mt[i + 1])];
    }

    /** The block after the two loops. */
    method UnrollEnd()
      requires MT.Length == SIZE && Halfway(MT[..], seed, base, SIZE - 1)
      modifies MT
      ensures Holds(MT[..], seed, base + SIZE, 0, SIZE)
    {
      hide Twist, Halfway, Holds, Shifted, Glue;
      ghost var mt := MT[..];
      UnrollLast(mt, seed, base);
      ShiftedIs(MT[SIZE - 1], MT[0]);
      MT[SIZE - 1] := MT[PERIOD - 1] ^ Shifted(Glue(MT[SIZE - 1], MT[0]));
      assert MT[..] == mt[SIZE - 1 := mt[PERIOD - 1] ^ Twist(mt[SIZE - 1], mt[0])];
    }

    /** GenerateNumbers: the next 624 elements replace the last ones, and are tempered. */
    method GenerateNumbers()
      requires MT.Length == SIZE && tempered.Length == SIZE && MT != tempered && Holds(MT[..], seed, base, 0, SIZE)
      modifies `index, `base, MT, tempered
      ensures Valid() && base == old(base) + SIZE && index == 0
    {
      hide Twist, Halfway, Temper, Holds;
      HalfwayStart(MT[..], seed, base);
      var i := 0;
      while i < DIFF
        invariant 0 <= i <= DIFF && Halfway(MT[..], seed, base, i)
        modifies MT
      {
        UnrollAt(i, i + PERIOD);
        i := i + 1;
      }
      while i < SIZE - 1
        invariant DIFF <= i <= SIZE - 1 && Halfway(MT[..], seed, base, i)
        modifies MT
      {
        UnrollAt(i, i - DIFF);
        i := i + 1;
      }
      UnrollEnd();
      base := base + SIZE;
      TemperAll();
      index := 0;
    }

    /** The tempering loop of GenerateNumbers. */
    method TemperAll()
      requires MT.Length == SIZE && tempered.Length == SIZE && MT != tempered
      modifies tempered
      ensures forall j :: 0 <= j < SIZE ==> tempered[j] == Temper(MT[j])
    {
      hide Temper;
      var i := 0;
      while i < SIZE
        invariant 0 <= i <= SIZE && forall j :: 0 <= j < i ==> tempered[j] == Temper(MT[j])
        modifies tempered
      {
        tempered[i] := Temper(MT[i]);
        i := i + 1;
      }
    }

    /** rand: the k-th call after srand consumes the tempered element 624 + k. */
    method Rand() returns (r: int)
      requires Valid()
      modifies `index, `base, MT, tempered
      ensures Valid() && seed == old(seed) && Consumed() == old(Consumed()) + 1
      ensures r == AbsInt(Temper(Element(seed, SIZE + old(Consumed()))))
    {
      hide Temper, Element, AbsInt;
      if index == SIZE {
        GenerateNumbers();
        index := 0;
      }
      assert MT[index] == MT[..][index];
      var y := tempered[index];
      index := index + 1;
      r := AbsInt(y);
    }

    /** randUpTo: rand's value less a multiple of `limit`, nearer to 0 than that; negative only for the one word whose
        absolute value overflows. */
    method RandUpTo(limit: int) returns (r: int)
      requires Valid() && limit > 0
      modifies `index, `base, MT, tempered
      ensures Valid() && seed == old(seed) && Consumed() == old(Consumed()) + 1
      ensures r == Lottery.CMod(AbsInt(Temper(Element(seed, SIZE + old(Consumed())))), limit)
      ensures (AbsInt(Temper(Element(seed, SIZE + old(Consumed())))) - r) % limit == 0 && -limit < r < limit
      ensures r < 0 ==> Temper(Element(seed, SIZE + old(Consumed()))) == 0x80000000
    {
      hide Temper, Element;
      var v := Rand();
      r := Lottery.CMod(v, limit);
      Lottery.CModIs(v, limit, r);
    }
  }

  lemma HalfwayStart(mt: seq<bv32>, seed: bv32, base: nat)
    requires |mt| == SIZE && Holds(mt, seed, base, 0, SIZE)
    ensures Halfway(mt, seed, base, 0)
  {
  }
}

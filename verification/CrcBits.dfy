/**
 * The cyclic redundancy check one bit at a time: the shift register of Annex A of ISO/IEC 13818-1, and
 * the algebra of its steps.
 */
module CrcBits {
  type Word = bv32

  /** An unsigned char, widened to a word as C's arithmetic does. */
  type Byte = b: Word | b < 256

  const POLYNOMIAL: Word := 0x04C1_1DB7

  /** Addition of polynomials over the field of two elements. */
  function Add(a: Word, b: Word): Word {
    a ^ b
  }

  predicate TopBit(w: Word) {
    w & 0x8000_0000 != 0
  }

  function Shift(w: Word): Word {
    w << 1
  }

  function Taps(carry: bool): Word {
    if carry then POLYNOMIAL else 0
  }

  /** One input bit enters the register. */
  function Feed(c: Word, bit: bool): Word {
    Add(Shift(c), Taps(TopBit(c) != bit))
  }

  /** The n top bits of w enter the register, the most significant first. */
  function FeedTop(c: Word, w: Word, n: nat): Word
    decreases n
  {
    if n == 0 then c else FeedTop(Feed(c, TopBit(w)), Shift(w), n - 1)
  }

  /** A byte moved to the top of the word. */
  function AtTop(b: Word): Word {
    b << 24
  }

  /** A byte enters the register, the most significant bit first. */
  function FeedByte(c: Word, b: Byte): Word {
    FeedTop(c, AtTop(b), 8)
  }

  /** The register after a whole message, fed bit by bit. */
  function Serial(c: Word, message: seq<Byte>): Word
    decreases |message|
  {
    if message == [] then c else Serial(FeedByte(c, message[0]), message[1..])
  }

  /** The register after n steps without input. */
  function Steps(c: Word, n: nat): Word
    decreases n
  {
    if n == 0 then c else Steps(Feed(c, false), n - 1)
  }

  function Shifts(w: Word, n: nat): Word
    decreases n
  {
    if n == 0 then w else Shifts(Shift(w), n - 1)
  }

  /** The word with its four bytes in the opposite order. */
  function Swap(w: Word): Word {
    (w << 24) | ((w & 0xFF00) << 8) | ((w >> 8) & 0xFF00) | (w >> 24)
  }

  /** What a byte adds to the swapped register eight steps after it entered. */
  function Contribution(i: Word): Word {
    Swap(Steps(i << 24, 8))
  }

  // ---- One step ----

  lemma AddCommutes(a: Word, b: Word)
    ensures Add(a, b) == Add(b, a)
  {
  }

  lemma AddAssociates(a: Word, b: Word, c: Word)
    ensures Add(Add(a, b), c) == Add(a, Add(b, c))
  {
  }

  lemma {:induction false} AddTwice(a: Word, b: Word, c: Word)
    ensures Add(Add(a, b), c) == Add(Add(a, c), b)
  {
    hide Add;
    AddAssociates(a, b, c);
    AddCommutes(b, c);
    AddAssociates(a, c, b);
  }

  lemma {:induction false} AddExchanges(p: Word, q: Word, r: Word, s: Word)
    ensures Add(Add(p, q), Add(r, s)) == Add(Add(p, r), Add(q, s))
  {
    hide Add;
    AddAssociates(Add(p, q), r, s);
    AddTwice(p, q, r);
    AddAssociates(Add(p, r), q, s);
  }

  lemma TopBitAdds(a: Word, b: Word)
    ensures TopBit(Add(a, b)) == (TopBit(a) != TopBit(b))
  {
  }

  lemma ShiftAdds(a: Word, b: Word)
    ensures Shift(Add(a, b)) == Add(Shift(a), Shift(b))
  {
  }

  lemma TapsAdd(p: bool, q: bool)
    ensures Taps(p != q) == Add(Taps(p), Taps(q))
  {
  }

  lemma {:induction false} StepAdds(a: Word, b: Word)
    ensures Feed(Add(a, b), false) == Add(Feed(a, false), Feed(b, false))
  {
    hide Add, Taps, Shift, TopBit;
    TopBitAdds(a, b);
    ShiftAdds(a, b);
    TapsAdd(TopBit(a), TopBit(b));
    AddExchanges(Shift(a), Shift(b), Taps(TopBit(a)), Taps(TopBit(b)));
  }

  /** Feeding w's top bit to c steps the register that already holds all of w. */
  lemma {:induction false} FeedIsStep(c: Word, w: Word)
    ensures Feed(Add(c, w), false) == Add(Feed(c, TopBit(w)), Shift(w))
  {
    hide Add, Taps, Shift, TopBit;
    TopBitAdds(c, w);
    ShiftAdds(c, w);
    AddTwice(Shift(c), Shift(w), Taps(TopBit(c) != TopBit(w)));
  }

  /** The polynomial is odd, so a step of a register that is not zero is not zero. */
  lemma StepLosesNothing(c: Word)
    ensures Feed(c, false) == 0 <==> c == 0
  {
  }

  // ---- Many steps ----

  lemma {:induction false} StepsAdd(a: Word, b: Word, n: nat)
    ensures Steps(Add(a, b), n) == Add(Steps(a, n), Steps(b, n))
    decreases n
  {
    hide Add, Feed;
    if n == 0 {
    } else {
      StepAdds(a, b);
      StepsAdd(Feed(a, false), Feed(b, false), n - 1);
    }
  }

  lemma {:induction false} StepsLoseNothing(c: Word, n: nat)
    ensures Steps(c, n) == 0 <==> c == 0
    decreases n
  {
    hide Feed;
    if n == 0 {
    } else {
      StepLosesNothing(c);
      StepsLoseNothing(Feed(c, false), n - 1);
    }
  }

  /** Feeding bits one by one is stepping the register that holds them all from the start. */
  lemma {:induction false} FeedTopIsSteps(c: Word, w: Word, n: nat)
    ensures Steps(Add(c, w), n) == Add(FeedTop(c, w, n), Shifts(w, n))
    decreases n
  {
    hide Add, Feed, Shift, TopBit;
    if n == 0 {
    } else {
      FeedIsStep(c, w);
      FeedTopIsSteps(Feed(c, TopBit(w)), Shift(w), n - 1);
    }
  }

  lemma ShiftedOut(b: Byte)
    ensures Shifts(AtTop(b), 8) == 0
  {
  }

  lemma AddZero(a: Word)
    ensures Add(a, 0) == a
  {
  }

  lemma {:induction false} FeedByteIsSteps(c: Word, b: Byte)
    ensures FeedByte(c, b) == Steps(Add(c, AtTop(b)), 8)
  {
    hide Add, FeedTop, Steps, Shifts;
    FeedTopIsSteps(c, AtTop(b), 8);
    ShiftedOut(b);
    AddZero(FeedTop(c, AtTop(b), 8));
  }

  /** While the top byte is zero, eight steps are a shift. */
  lemma LowStepsShift(c: Word)
    requires c < 0x0100_0000
    ensures Steps(c, 8) == c << 8
  {
  }

  // ---- Swapping bytes ----

  lemma SwapAdd(a: Word, b: Word)
    ensures Swap(Add(a, b)) == Add(Swap(a), Swap(b))
  {
  }

  lemma SwapTwice(a: Word)
    ensures Swap(Swap(a)) == a
  {
  }

  lemma SwapShift(a: Word)
    ensures Swap(a >> 8) == Swap(a) << 8
  {
  }

  lemma SwapTop(a: Word)
    ensures Swap(a) >> 24 == a & 0xFF
  {
  }
}

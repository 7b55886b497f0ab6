/** lib/util/utilAvcrc.c: the table-driven check, proved equal to the bit-serial one up to byte order. */
module Crc {
  import opened CrcBits
  import opened CrcTable
  import opened Options

  /** A context is an array with an entry for each value of a byte. */
  type Context = table: seq<Word> | |table| >= 256 witness seq(256, i => 0)

  function Low(crc: Word): Byte {
    crc & 0xFF
  }

  function Meet(crc: Word, b: Byte): Byte {
    Low(crc) ^ b
  }

  /** The byte as C's unsigned char. */
  function Narrow(b: Byte): bv8 {
    b as bv8
  }

  /** One turn of the loop. */
  function Turn(table: Context, crc: Word, b: Byte): Word {
    Add(table[Narrow(Meet(crc, b)) as int], crc >> 8)
  }

  function Fast(table: Context, crc: Word, message: seq<Byte>): Word
    decreases |message|
  {
    if message == [] then crc else Fast(table, Turn(table, crc, message[0]), message[1..])
  }

  function TableOf(ctx: Option<Context>): Context {
    if ctx.None? then AvCtx() else ctx.value
  }

  // ---- The fast form refines the bit-serial one ----

  function Up(w: Word): Word {
    w << 8
  }

  function Rest(w: Word): Word {
    w & 0x00FF_FFFF
  }

  lemma Parts(c: Word, b: Word)
    requires b < 256
    ensures Add(c, b << 24) == Add(((c >> 24) ^ b) << 24, c & 0x00FF_FFFF)
  {
  }

  lemma RestUp(c: Word)
    ensures Rest(c) < 0x0100_0000 && Rest(c) << 8 == Up(c)
  {
  }

  lemma {:induction false} Meets(crc: Word, b: Byte)
    ensures Add(Swap(crc), AtTop(b)) == Add(AtTop(Meet(crc, b)), Rest(Swap(crc)))
  {
    hide Add, Swap;
    SwapTop(crc);
    Parts(Swap(crc), b);
  }

  lemma {:induction false} RestSteps(c: Word)
    ensures Steps(Rest(c), 8) == Up(c)
  {
    hide Steps;
    RestUp(c);
    LowStepsShift(Rest(c));
  }

  /** The incoming byte meets the register's top byte; the other three only move up. */
  lemma {:induction false} FeedByteSplits(crc: Word, b: Byte)
    ensures FeedByte(Swap(crc), b) == Add(Steps(AtTop(Meet(crc, b)), 8), Up(Swap(crc)))
  {
    hide Add, Steps, Swap, FeedByte, AtTop, Meet, Up, Rest;
    Meets(crc, b);
    RestSteps(Swap(crc));
    FeedByteIsSteps(Swap(crc), b);
    StepsAdd(AtTop(Meet(crc, b)), Rest(Swap(crc)), 8);
  }

  lemma NarrowBack(b: Byte)
    ensures Narrow(b) as Word == b
  {
  }

  lemma {:induction false} TurnAdds(crc: Word, b: Byte)
    ensures Turn(AvCtx(), crc, b) == Add(Contribution(Meet(crc, b)), crc >> 8)
  {
    hide Contribution, AvCtx, Meet, Narrow, Add;
    NarrowBack(Meet(crc, b));
    TableCorrect(Narrow(Meet(crc, b)));
  }

  lemma {:induction false} TurnSplits(crc: Word, b: Byte)
    ensures Swap(Turn(AvCtx(), crc, b)) == Add(Steps(AtTop(Meet(crc, b)), 8), Up(Swap(crc)))
  {
    hide Turn, AvCtx, Add, Steps, Swap, Meet;
    TurnAdds(crc, b);
    SwapAdd(Contribution(Meet(crc, b)), crc >> 8);
    SwapTwice(Steps(AtTop(Meet(crc, b)), 8));
    SwapShift(crc);
  }

  /** One table step does to the swapped register what the byte's eight bits do. */
  lemma {:induction false} TurnFeedsByte(crc: Word, b: Byte)
    ensures Swap(Turn(AvCtx(), crc, b)) == FeedByte(Swap(crc), b)
  {
    hide Turn, AvCtx, Add, Steps, Swap, FeedByte, Low, Up, AtTop;
    TurnSplits(crc, b);
    FeedByteSplits(crc, b);
  }

  /** For every start value and message: the table form is the bit-serial one with its bytes swapped. */
  lemma {:induction false} FastIsSerial(crc: Word, message: seq<Byte>)
    ensures Swap(Fast(AvCtx(), crc, message)) == Serial(Swap(crc), message)
    decreases |message|
  {
    hide Swap, FeedByte, Turn, AvCtx;
    if message == [] {
    } else {
      TurnFeedsByte(crc, message[0]);
      FastIsSerial(Turn(AvCtx(), crc, message[0]), message[1..]);
    }
  }

  /** A message may be checked in pieces, whatever the table. */
  lemma {:induction false} FastComposes(table: Context, crc: Word, m: seq<Byte>, n: seq<Byte>)
    ensures Fast(table, crc, m + n) == Fast(table, Fast(table, crc, m), n)
    decreases |m|
  {
    hide Turn;
    if m == [] {
      assert m + n == n;
    } else {
      assert (m + n)[1..] == m[1..] + n;
      FastComposes(table, Turn(table, crc, m[0]), m[1..], n);
    }
  }

  // ---- What the check detects ----

  lemma SwapInjective(a: Word, b: Word)
    ensures Swap(a) == Swap(b) ==> a == b
  {
    SwapTwice(a);
    SwapTwice(b);
  }

  /** Two registers fed the same byte stay apart. */
  lemma {:induction false} FeedByteKeepsApart(c: Word, d: Word, b: Byte)
    requires c != d
    ensures FeedByte(c, b) != FeedByte(d, b)
  {
    hide Steps, FeedByte;
    FeedByteIsSteps(c, b);
    FeedByteIsSteps(d, b);
    DifferenceSteps(Add(c, AtTop(b)), Add(d, AtTop(b)));
    AddCancels(c, d, AtTop(b));
  }

  lemma AddSelf(a: Word)
    ensures Add(a, a) == 0
  {
  }

  lemma {:induction false} AddCancels(a: Word, b: Word, x: Word)
    ensures Add(Add(a, x), x) == a
    ensures Add(a, x) == Add(b, x) <==> a == b
    ensures Add(a, b) == 0 <==> a == b
  {
    hide Add;
    AddSelf(x);
    AddSelf(b);
    AddAssociates(a, x, x);
    AddAssociates(b, x, x);
    AddAssociates(a, b, b);
    AddZero(a);
    AddZero(b);
    AddCommutes(0, b);
  }

  lemma {:induction false} DifferenceSteps(a: Word, b: Word)
    ensures Steps(a, 8) == Steps(b, 8) <==> a == b
  {
    hide Add, Steps;
    StepsAdd(a, b, 8);
    StepsLoseNothing(Add(a, b), 8);
    AddCancels(a, b, 0);
    AddCancels(Steps(a, 8), Steps(b, 8), 0);
  }

  /** Different start values never meet, so what a check has seen is never forgotten. */
  lemma {:induction false} StaysApart(crc: Word, other: Word, message: seq<Byte>)
    requires crc != other
    ensures Fast(AvCtx(), crc, message) != Fast(AvCtx(), other, message)
    decreases |message|
  {
    hide Swap, FeedByte, Turn, AvCtx;
    if message == [] {
    } else {
      var b := message[0];
      TurnFeedsByte(crc, b);
      TurnFeedsByte(other, b);
      SwapInjective(crc, other);
      FeedByteKeepsApart(Swap(crc), Swap(other), b);
      StaysApart(Turn(AvCtx(), crc, b), Turn(AvCtx(), other, b), message[1..]);
    }
  }

  // ---- The message followed by its own check ----

  /** The word has no bits above its n lowest bytes. */
  predicate Fits(w: Word, n: nat) {
    match n
    case 0 => w == 0
    case 1 => w < 0x100
    case 2 => w < 0x1_0000
    case 3 => w < 0x0100_0000
    case _ => true
  }

  function Drop(w: Word): Word {
    w >> 8
  }

  /** The word's n lowest bytes as memory holds them on a little-endian machine. */
  function LittleEndian(w: Word, n: nat): (bytes: seq<Byte>)
    ensures |bytes| == n
    decreases n
  {
    if n == 0 then [] else [Low(w)] + LittleEndian(Drop(w), n - 1)
  }

  lemma DropFits(w: Word, n: nat)
    requires 1 <= n <= 4
    ensures Fits(Drop(w), n - 1) <==> Fits(w, n)
  {
  }

  lemma FitsThree(w: Word, n: nat)
    requires n <= 3 && Fits(w, n)
    ensures Fits(w, 3)
  {
  }

  lemma TopByte(contribution: Word, crc: Word)
    ensures Add(contribution, crc >> 8) < 0x0100_0000 <==> Swap(contribution) & 0xFF == 0
  {
  }

  lemma LowByteZero(s: Word)
    ensures s >> 8 < 0x0100_0000
    ensures s & 0xFF == 0 <==> s == (s >> 8) << 8
  {
  }

  lemma ByteAtTop(i: Byte)
    ensures AtTop(i) < 0x0100_0000 <==> i == 0
    ensures AtTop(i) == 0 <==> i == 0
  {
  }

  /** Only the zero byte leaves eight steps without a trace in the lowest byte. */
  lemma {:induction false} OnlyZeroVanishes(i: Byte)
    ensures Steps(AtTop(i), 8) & 0xFF == 0 <==> i == 0
  {
    hide Steps;
    var s := Steps(AtTop(i), 8);
    ByteAtTop(i);
    StepsLoseNothing(AtTop(i), 8);
    LowByteZero(s);
    if s & 0xFF == 0 {
      LowStepsShift(s >> 8);
      DifferenceSteps(AtTop(i), s >> 8);
    }
  }

  lemma SwapOfZero(w: Word)
    ensures Swap(w) == 0 <==> w == 0
  {
  }

  lemma ByteDifference(a: Byte, b: Byte)
    ensures a ^ b < 256
    ensures a ^ b == 0 <==> a == b
  {
  }

  /** A turn empties the top byte exactly when the incoming byte is the register's lowest one. */
  lemma {:induction false} TurnEmptiesTop(crc: Word, b: Byte)
    ensures Fits(Turn(AvCtx(), crc, b), 3) <==> b == Low(crc)
    ensures b == Low(crc) ==> Turn(AvCtx(), crc, b) == Drop(crc)
  {
    hide AvCtx, Turn, Add, Steps, Swap;
    ByteDifference(Low(crc), b);
    var i := Meet(crc, b);
    var s := Steps(AtTop(i), 8);
    TurnAdds(crc, b);
    TopByte(Swap(s), crc);
    SwapTwice(s);
    OnlyZeroVanishes(i);
    if i == 0 {
      ByteAtTop(i);
      StepsLoseNothing(0, 8);
      SwapOfZero(0);
      AddCommutes(0, crc >> 8);
      AddZero(crc >> 8);
    }
  }

  /** Up to four bytes that bring the register to zero are the register's own, in order. */
  lemma {:induction false} ZeroNeedsOwnBytes(w: Word, q: seq<Byte>)
    requires |q| <= 4 && Fast(AvCtx(), w, q) == 0
    ensures Fits(w, |q|) && q == LittleEndian(w, |q|)
    decreases |q|
  {
    hide AvCtx, Turn, Drop, Low;
    if q == [] {
    } else {
      var next := Turn(AvCtx(), w, q[0]);
      assert Fits(next, 3) && q[1..] == LittleEndian(next, |q| - 1) && Fits(next, |q| - 1) by {
        ZeroNeedsOwnBytes(next, q[1..]);
        FitsThree(next, |q| - 1);
      }
      hide Fits;
      TurnEmptiesTop(w, q[0]);
      DropFits(w, |q|);
    }
  }

  lemma {:induction false} OwnBytesGiveZero(w: Word, n: nat)
    requires n <= 4 && Fits(w, n)
    ensures Fast(AvCtx(), w, LittleEndian(w, n)) == 0
    decreases n
  {
    hide AvCtx, Turn, Drop, Low;
    if n == 0 {
    } else {
      hide Fits;
      var q := LittleEndian(w, n);
      TurnEmptiesTop(w, q[0]);
      DropFits(w, n);
      assert q[1..] == LittleEndian(Drop(w), n - 1);
      OwnBytesGiveZero(Drop(w), n - 1);
    }
  }

  lemma {:induction false} ResidueOfFour(w: Word, q: seq<Byte>)
    requires |q| == 4
    ensures Fast(AvCtx(), w, q) == 0 <==> q == LittleEndian(w, 4)
  {
    hide Fast, AvCtx, LittleEndian;
    if Fast(AvCtx(), w, q) == 0 {
      ZeroNeedsOwnBytes(w, q);
    }
    OwnBytesGiveZero(w, 4);
  }

  /**
   * A message followed by four bytes checks to zero exactly when they are the message's own check, its
   * least significant byte first.
   */
  lemma {:induction false} ResidueIsZero(crc: Word, message: seq<Byte>, q: seq<Byte>)
    requires |q| == 4
    ensures Fast(AvCtx(), crc, message + q) == 0 <==> q == LittleEndian(Fast(AvCtx(), crc, message), 4)
  {
    hide Fast, AvCtx, LittleEndian;
    FastComposes(AvCtx(), crc, message, q);
    ResidueOfFour(Fast(AvCtx(), crc, message), q);
  }

  // ---- Damage within four neighbouring bytes ----

  lemma ByteAdd(a: Byte, b: Byte)
    ensures a ^ b < 256 && AtTop(a ^ b) == Add(AtTop(a), AtTop(b))
  {
  }

  function Pattern(m: seq<Byte>, n: seq<Byte>): (p: seq<Byte>)
    requires |m| == |n|
    ensures |p| == |m|
    ensures forall k :: 0 <= k < |p| ==> p[k] == m[k] ^ n[k]
  {
    if m == [] then []
    else ByteAdd(m[0], n[0]); [m[0] ^ n[0]] + Pattern(m[1..], n[1..])
  }

  /** The check is linear: two registers differ by what the error pattern alone would leave. */
  lemma {:induction false} SerialAdds(c: Word, d: Word, m: seq<Byte>, n: seq<Byte>)
    requires |m| == |n|
    ensures Add(Serial(c, m), Serial(d, n)) == Serial(Add(c, d), Pattern(m, n))
    decreases |m|
  {
    hide Add, FeedByte, Steps;
    if m == [] {
    } else {
      var a, b := m[0], n[0];
      ByteAdd(a, b);
      var both: Byte := a ^ b;
      FeedByteIsSteps(c, a);
      FeedByteIsSteps(d, b);
      FeedByteIsSteps(Add(c, d), both);
      StepsAdd(Add(c, AtTop(a)), Add(d, AtTop(b)), 8);
      AddExchanges(c, AtTop(a), d, AtTop(b));
      SerialAdds(FeedByte(c, a), FeedByte(d, b), m[1..], n[1..]);
      assert Pattern(m, n)[1..] == Pattern(m[1..], n[1..]);
    }
  }

  lemma {:induction false} FourBytesTellApart(crc: Word, m: seq<Byte>, n: seq<Byte>)
    requires |m| == |n| == 4
    ensures Fast(AvCtx(), crc, m) == Fast(AvCtx(), crc, n) <==> m == n
  {
    hide Fast, Serial, Add, Swap, AvCtx;
    var c := Swap(crc);
    var p := Pattern(m, n);
    FastIsSerial(crc, m);
    FastIsSerial(crc, n);
    SerialAdds(c, c, m, n);
    AddSelf(c);
    AddCancels(Serial(c, m), Serial(c, n), 0);
    FastIsSerial(0, p);
    SwapOfZero(0);
    SwapOfZero(Fast(AvCtx(), 0, p));
    ResidueOfFour(0, p);
    if Fast(AvCtx(), crc, m) == Fast(AvCtx(), crc, n) {
      assert p == LittleEndian(0, 4) == [0, 0, 0, 0];
      forall k | 0 <= k < 4
        ensures m[k] == n[k]
      {
        ByteDifference(m[k], n[k]);
      }
    }
  }

  /** Two messages that differ only within a window of up to four bytes have different checks. */
  lemma {:induction false} BurstDetected(crc: Word, before: seq<Byte>, m: seq<Byte>, n: seq<Byte>, after: seq<Byte>)
    requires |m| == |n| <= 4 && m != n
    ensures Fast(AvCtx(), crc, before + m + after) != Fast(AvCtx(), crc, before + n + after)
  {
    hide Fast, AvCtx;
    var table := AvCtx();
    var start := Fast(table, crc, before);
    var pad: seq<Byte> := seq(4 - |m|, i => 0);
    FourBytesTellApart(start, m + pad, n + pad) by {
      assert m == (m + pad)[..|m|] && n == (n + pad)[..|n|];
    }
    FastComposes(table, start, m, pad);
    FastComposes(table, start, n, pad);
    StaysApart(Fast(table, start, m), Fast(table, start, n), after);
    FastComposes(table, crc, before, m);
    FastComposes(table, crc, before, n);
    FastComposes(table, crc, before + m, after);
    FastComposes(table, crc, before + n, after);
  }

  // ---- The loop ----

  method AvCrc(ctx: Option<Context>, start: Word, buffer: array<Byte>, length: nat) returns (crc: Word)
    requires length <= buffer.Length
    ensures crc == Fast(TableOf(ctx), start, buffer[..length])
    ensures ctx.None? ==> Swap(crc) == Serial(Swap(start), buffer[..length])
  {
    hide AvCtx, Swap;
    var table := TableOf(ctx);
    crc := start;
    var at := 0;
    while at < length
      invariant 0 <= at <= length
      invariant Fast(table, crc, buffer[at..length]) == Fast(table, start, buffer[..length])
    {
      assert buffer[at..length][1..] == buffer[at + 1..length];
      crc := table[Narrow(Meet(crc, buffer[at])) as int] ^ (crc >> 8);
      at := at + 1;
    }
    if ctx.None? {
      FastIsSerial(start, buffer[..length]);
    }
  }
}

/** The timing wheel's slots: which list a timer goes to, and what it means to be there.

    The lists of tv1 .. tv5 are numbered one after another, 256 and then 4 times 64, and the
    list of timers queued while a tick runs comes last. */
module WheelSlots {
  import opened Arithmetic

  const QUEUED: nat := 512
  const LISTS: nat := 513

  /** Ticks one slot of a level spans: 1, then 1 << 8, 1 << 14, 1 << 20, 1 << 26. */
  function Unit(level: nat): (u: nat)
    requires level < 5
    ensures u > 0
  {
    if level == 0 then 1 else if level == 1 then 0x100 else if level == 2 then 0x4000
    else if level == 3 then 0x10_0000 else 0x400_0000
  }

  /** The first list of a level. */
  function First(level: nat): nat
    requires level < 5
  {
    if level == 0 then 0 else 192 + 64 * level
  }

  function LevelOf(slot: nat): (l: nat)
    requires slot < QUEUED
    ensures l < 5
  {
    if slot < 256 then 0 else (slot - 192) / 64
  }

  /** The list `internal_add_timer` picks when no tick is running; a timer already overdue
      goes to the slot the next tick takes. */
  function SlotFor(expires: nat, now: nat, tv1Index: nat): nat
  {
    var idx := expires - now;
    if idx < 0 then tv1Index
    else if idx < 0x100 then expires % 256
    else if idx < 0x4000 then First(1) + expires / 0x100 % 64
    else if idx < 0x10_0000 then First(2) + expires / 0x4000 % 64
    else if idx < 0x400_0000 then First(3) + expires / 0x10_0000 % 64
    else First(4) + expires / 0x400_0000 % 64
  }

  /** The first slot of a level not yet cascaded before tick `now`: `now` over the level's
      span, rounded up; after the cascade of that tick, the one after `now`'s own. */
  function Base(level: nat, now: nat, cascaded: bool): nat
    requires level < 5
  {
    if cascaded then now / Unit(level) + 1 else (now + Unit(level) - 1) / Unit(level)
  }

  /** A timer that expires at `e` belongs in `slot`: `base` is its level's first slot. */
  predicate InSlot(slot: nat, e: nat, now: nat, base: nat)
    requires slot < QUEUED
  {
    var l := LevelOf(slot);
    if l == 0 then
      (now <= e < now + 256 && e % 256 == slot) || (e < now && slot == now % 256)
    else
      e / Unit(l) % 64 == slot - First(l) && base <= e / Unit(l) < base + 64
  }

  /** A timer is put where it belongs, whether or not its level was cascaded for this tick. */
  lemma {:induction false} SlotForBelongs(e: nat, now: nat, cascaded: bool)
    requires e - now < 0x1_0000_0000
    ensures var s := SlotFor(e, now, now % 256);
            s < QUEUED && InSlot(s, e, now, Base(LevelOf(s), now, cascaded))
  {
    if e - now >= 0x100 {
      var l := if e - now < 0x4000 then 1 else if e - now < 0x10_0000 then 2 else if e - now < 0x400_0000 then 3 else 4;
      SpansAhead(now, e, Unit(l));
      var i := e / Unit(l) % 64;
      assert SlotFor(e, now, now % 256) == First(l) + i;
      LevelOfFirst(l, i);
    }
  }

  lemma SameOf64(a: nat, b: nat)
    requires a % 64 == b % 64 && b <= a < b + 64
    ensures a == b
  {
  }

  /** Being in a slot above the first level. */
  lemma {:induction false} InUpperSlot(slot: nat, e: nat, now: nat, base: nat)
    requires 256 <= slot < QUEUED
    ensures var l := LevelOf(slot);
            && 1 <= l < 5 && First(l) <= slot < First(l) + 64
            && (InSlot(slot, e, now, base) <==> e / Unit(l) % 64 == slot - First(l) && base <= e / Unit(l) < base + 64)
  {
    hide Unit;
  }

  /** A timer less than a level's span away goes below that level. */
  lemma {:induction false} NearGoesBelow(level: nat, e: nat, now: nat)
    requires 1 <= level < 5 && now <= e < now + Unit(level)
    ensures LevelOf(SlotFor(e, now, now % 256)) < level
  {
    if e - now >= 0x100 {
      var l := if e - now < 0x4000 then 1 else if e - now < 0x10_0000 then 2 else 3;
      LevelOfFirst(l, e / Unit(l) % 64);
    }
  }

  /** What cascading a level takes out expires within the span, and so goes to a lower level. */
  lemma {:induction false} CascadeGoesDown(level: nat, e: nat, now: nat)
    requires 1 <= level < 5 && now % Unit(level) == 0
    requires InSlot(First(level) + now / Unit(level) % 64, e, now, Base(level, now, false))
    ensures now <= e < now + Unit(level)
    ensures LevelOf(SlotFor(e, now, now % 256)) < level
  {
    var u := Unit(level);
    assert e / u % 64 == now / u % 64 && now / u <= e / u < now / u + 64 by {
      hide SlotFor;
      LevelOfFirst(level, now / u % 64);
      InUpperSlot(First(level) + now / u % 64, e, now, Base(level, now, false));
      BaseSettled(level, now);
    }
    hide InSlot, SlotFor, Unit, Base, First, LevelOf;
    SameOf64(e / u, now / u);
    DivBounds(e, u);
    Multiple(now, u);
    NearGoesBelow(level, e, now);
  }

  lemma Multiple(a: nat, u: nat)
    requires u > 0 && a % u == 0
    ensures a == a / u * u
  {
  }

  /** What cascading leaves in a level lies beyond the slot taken. */
  lemma {:induction false} CascadeLeaves(slot: nat, e: nat, now: nat)
    requires 256 <= slot < QUEUED && now % Unit(LevelOf(slot)) == 0
    requires InSlot(slot, e, now, Base(LevelOf(slot), now, false))
    requires slot != First(LevelOf(slot)) + now / Unit(LevelOf(slot)) % 64
    ensures InSlot(slot, e, now, Base(LevelOf(slot), now, true))
  {
    var l := LevelOf(slot);
    InUpperSlot(slot, e, now, Base(l, now, false));
    InUpperSlot(slot, e, now, Base(l, now, true));
    BaseSettled(l, now);
    assert Base(l, now, true) == now / Unit(l) + 1;
    hide InSlot, Base, Unit, First, LevelOf;
    Beyond(e / Unit(l), now / Unit(l));
  }

  lemma Beyond(a: nat, b: nat)
    requires b <= a < b + 64 && a % 64 != b % 64
    ensures b + 1 <= a < b + 65
  {
  }

  /** A level whose turn it is not needs no cascade. */
  lemma {:induction false} BaseSettled(level: nat, now: nat)
    requires level < 5
    ensures now % Unit(level) != 0 ==> Base(level, now, false) == Base(level, now, true)
    ensures Base(level, now, true) == Base(level, now + 1, false)
    ensures now % Unit(level) == 0 ==> Base(level, now, false) == now / Unit(level)
  {
  }

  /** After the cascade, the slot of tick `now` holds what is due and no other slot does. */
  lemma {:induction false} DueSlot(slot: nat, e: nat, now: nat)
    requires slot < QUEUED && InSlot(slot, e, now, Base(LevelOf(slot), now, true))
    ensures e <= now <==> slot == now % 256
    ensures slot != now % 256 ==> InSlot(slot, e, now + 1, Base(LevelOf(slot), now + 1, false))
  {
    if slot < 256 {
      DueRootSlot(slot, e, now);
    } else {
      var l := LevelOf(slot);
      InUpperSlot(slot, e, now, Base(l, now, true));
      InUpperSlot(slot, e, now + 1, Base(l, now + 1, false));
      BaseSettled(l, now);
      assert Base(l, now, true) == now / Unit(l) + 1;
      hide InSlot, Base, Unit, First, LevelOf;
      Later(now, e, Unit(l));
    }
  }

  lemma {:induction false} DueRootSlot(slot: nat, e: nat, now: nat)
    requires slot < 256 && InSlot(slot, e, now, Base(LevelOf(slot), now, true))
    ensures e <= now <==> slot == now % 256
    ensures slot != now % 256 ==> InSlot(slot, e, now + 1, Base(LevelOf(slot), now + 1, false))
  {
  }

  /** A time in a later span is later. */
  lemma {:induction false} Later(now: nat, e: nat, u: nat)
    requires u > 0 && now / u < e / u
    ensures now < e
  {
    DivBounds(now, u);
    DivBounds(e, u);
    MulMonotone(now / u + 1, e / u, u);
    AddMul(now / u, 1, u);
  }

  lemma AfterMultiple(q: nat)
    ensures (q + 1) % 64 == 1 <==> q % 64 == 0
  {
  }

  lemma SpansOfLevel2(now: nat)
    requires now % 0x100 == 0
    ensures now / 0x100 % 64 == 0 <==> now % 0x4000 == 0
  {
  }

  lemma SpansOfLevel3(now: nat)
    requires now % 0x4000 == 0
    ensures now / 0x4000 % 64 == 0 <==> now % 0x10_0000 == 0
  {
  }

  lemma SpansOfLevel4(now: nat)
    requires now % 0x10_0000 == 0
    ensures now / 0x10_0000 % 64 == 0 <==> now % 0x400_0000 == 0
  {
  }

  /** The next level up is cascaded exactly when this level's index comes to 1. */
  lemma {:induction false} NextLevel(level: nat, now: nat)
    requires 1 <= level < 4 && now % Unit(level) == 0
    ensures Base(level, now, true) % 64 == 1 <==> now % Unit(level + 1) == 0
  {
    AfterMultiple(now / Unit(level));
    match level
    case 1 => SpansOfLevel2(now);
    case 2 => SpansOfLevel3(now);
    case _ => SpansOfLevel4(now);
  }

  lemma {:induction false} UnitsDivide(low: nat, high: nat, now: nat)
    requires low <= high < 5 && now % Unit(high) == 0
    ensures now % Unit(low) == 0
  {
    if low < high {
      var k := now / Unit(high);
      assert now == k * Unit(high);
      if high == 1 {
        assert now % Unit(0) == 0;
      } else {
        assert Unit(high) == 64 * Unit(high - 1);
        assert now == 64 * k * Unit(high - 1);
        DivOfMul(64 * k, Unit(high - 1));
      }
      UnitsDivide(low, high - 1, now);
    }
  }

  lemma {:induction false} LevelOfFirst(level: nat, i: nat)
    requires level < 5 && i < if level == 0 then 256 else 64
    ensures First(level) + i < QUEUED && LevelOf(First(level) + i) == level
  {
  }
}

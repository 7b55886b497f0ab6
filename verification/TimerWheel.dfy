/** lib/util/utilTimer.c: the hierarchical timing wheel, proved to behave as the plain set of
    timers in `TimerSpec`. */
module TimerWheels {
  import opened Arithmetic
  import opened TimerSpec
  import opened WheelSlots

  // ---- The lists ----

  /** Every armed timer is in exactly one list, once; `place` says which. */
  ghost predicate Filed(v: seq<seq<Key>>, place: map<Key, nat>)
  {
    && |v| == LISTS
    && (forall w, k :: 0 <= w < LISTS && k in v[w] ==> k in place && place[k] == w)
    && (forall k :: k in place ==> place[k] < LISTS && k in v[place[k]])
    && (forall w :: 0 <= w < LISTS ==> NoDuplicates(v[w]))
  }

  /** Every timer in the wheel is where it belongs, `bases` being each level's first slot. */
  ghost predicate Sorted(v: seq<seq<Key>>, timers: map<Key, Timer>, now: nat, bases: seq<nat>)
    requires |v| == LISTS && |bases| == 5
  {
    forall w, k :: 0 <= w < QUEUED && k in v[w] ==>
      k in timers && InSlot(w, timers[k].expires, now, bases[LevelOf(w)])
  }

  /** The timers but `loose` are filed, and those in the wheel sorted. */
  ghost predicate Wheel(v: seq<seq<Key>>, place: map<Key, nat>, timers: map<Key, Timer>, now: nat, bases: seq<nat>, loose: set<Key>)
  {
    && |bases| == 5 && Filed(v, place) && Sorted(v, timers, now, bases)
    && place.Keys == timers.Keys - loose && loose <= timers.Keys
  }

  /** Each level's first slot, those below `level` being cascaded for this tick. */
  ghost function Bases(now: nat, level: nat): (b: seq<nat>)
    ensures |b| == 5
  {
    [Base(0, now, 0 < level), Base(1, now, 1 < level), Base(2, now, 2 < level), Base(3, now, 3 < level), Base(4, now, 4 < level)]
  }

  lemma {:induction false} FileTail(v: seq<seq<Key>>, place: map<Key, nat>, timers: map<Key, Timer>, now: nat, bases: seq<nat>,
                                    loose: set<Key>, k: Key, w: nat)
    requires Wheel(v, place, timers, now, bases, loose) && k in loose && w < LISTS
    requires w == QUEUED || InSlot(w, timers[k].expires, now, bases[LevelOf(w)])
    ensures Wheel(v[w := v[w] + [k]], place[k := w], timers, now, bases, loose - {k})
  {
    var v', place' := v[w := v[w] + [k]], place[k := w];
    assert k !in place;
    assert k !in v[w];
    assert v'[w][|v[w]|] == k;
    forall x, y | 0 <= x < LISTS && y in v'[x]
      ensures y in place' && place'[y] == x
    {
      assert y == k || y in v[x];
    }
    forall y | y in place'
      ensures place'[y] < LISTS && y in v'[place'[y]]
    {
      if y != k {
        var i :| 0 <= i < |v[place[y]]| && v[place[y]][i] == y;
        assert v'[place[y]][i] == y;
      }
    }
  }

  lemma {:induction false} UnfileHead(v: seq<seq<Key>>, place: map<Key, nat>, timers: map<Key, Timer>, now: nat, bases: seq<nat>,
                                      loose: set<Key>, w: nat)
    requires Wheel(v, place, timers, now, bases, loose) && w < LISTS && v[w] != []
    ensures v[w][0] in timers && v[w][0] !in loose
    ensures Wheel(v[w := v[w][1..]], place - {v[w][0]}, timers, now, bases, loose + {v[w][0]})
  {
    var k := v[w][0];
    var v' := v[w := v[w][1..]];
    assert k in v[w] && place[k] == w;
    assert v[w] == [k] + v[w][1..];
    forall x, y | 0 <= x < LISTS && y in v'[x]
      ensures y in place - {k} && (place - {k})[y] == x
    {
      assert y in v[x];
    }
  }

  /** A loose timer may change, appear or go; a filed one may change all but its expiry. */
  lemma {:induction false} Retimed(v: seq<seq<Key>>, place: map<Key, nat>, timers: map<Key, Timer>, timers': map<Key, Timer>,
                                   now: nat, bases: seq<nat>, loose: set<Key>, loose': set<Key>)
    requires Wheel(v, place, timers, now, bases, loose)
    requires timers'.Keys - loose' == timers.Keys - loose && loose' <= timers'.Keys
    requires forall k :: k in timers && k !in loose ==> k in timers' && timers'[k].expires == timers[k].expires
    ensures Wheel(v, place, timers', now, bases, loose')
  {
    forall w, k | 0 <= w < QUEUED && k in v[w]
      ensures k in timers' && InSlot(w, timers'[k].expires, now, bases[LevelOf(w)])
    {
      assert k in place;
    }
  }

  lemma {:induction false} LooseNotFiled(v: seq<seq<Key>>, place: map<Key, nat>, timers: map<Key, Timer>, now: nat, bases: seq<nat>,
                                         loose: set<Key>, k: Key)
    requires Wheel(v, place, timers, now, bases, loose) && k in loose
    ensures k !in v[QUEUED]
  {
  }

  lemma {:induction false} HeadIsSorted(v: seq<seq<Key>>, place: map<Key, nat>, timers: map<Key, Timer>, now: nat, bases: seq<nat>, w: nat)
    requires Wheel(v, place, timers, now, bases, {}) && w < QUEUED && v[w] != []
    ensures v[w][0] in timers && InSlot(w, timers[v[w][0]].expires, now, bases[LevelOf(w)])
  {
    assert v[w][0] in v[w];
  }

  lemma {:induction false} CascadedSorted(v: seq<seq<Key>>, timers: map<Key, Timer>, now: nat, level: nat)
    requires |v| == LISTS && 1 <= level < 5 && now % Unit(level) == 0
    requires Sorted(v, timers, now, Bases(now, level)) && v[First(level) + now / Unit(level) % 64] == []
    ensures Sorted(v, timers, now, Bases(now, level + 1))
  {
    hide InSlot;
    forall w, k | 0 <= w < QUEUED && k in v[w]
      ensures k in timers && InSlot(w, timers[k].expires, now, Bases(now, level + 1)[LevelOf(w)])
    {
      assert InSlot(w, timers[k].expires, now, Bases(now, level)[LevelOf(w)]);
      if LevelOf(w) == level {
        CascadeLeaves(w, timers[k].expires, now);
      }
    }
  }

  /** Once this tick's cascades are done, the other levels need none. */
  lemma {:induction false} AllCascaded(v: seq<seq<Key>>, timers: map<Key, Timer>, now: nat, level: nat)
    requires 1 <= level <= 5 && (level < 5 ==> now % Unit(level) != 0)
    ensures Bases(now, level)[1..] == Bases(now, 5)[1..]
    ensures |v| == LISTS && Sorted(v, timers, now, Bases(now, level)) ==> Sorted(v, timers, now, Bases(now, 5))
  {
    hide InSlot, Base, Unit;
    forall l | 1 <= l < 5
      ensures Bases(now, level)[l] == Bases(now, 5)[l]
    {
      BaseSettled(l, now);
      if level <= l && now % Unit(l) == 0 {
        UnitsDivide(level, l, now);
      }
    }
    if |v| == LISTS && Sorted(v, timers, now, Bases(now, level)) {
      forall w, k | 0 <= w < QUEUED && k in v[w]
        ensures k in timers && InSlot(w, timers[k].expires, now, Bases(now, 5)[LevelOf(w)])
      {
        assert InSlot(w, timers[k].expires, now, Bases(now, level)[LevelOf(w)]);
        RootIgnoresBase(w, timers[k].expires, now, Bases(now, level)[0], Bases(now, 5)[0]);
      }
    }
  }

  /** Each level's index is its first slot. */
  ghost predicate Indexed(index: seq<nat>, now: nat, level: nat)
  {
    |index| == 5 && index[0] == now % 256 && forall l :: 1 <= l < 5 ==> index[l] == Bases(now, level)[l] % 64
  }

  lemma {:induction false} IndexStep(index: seq<nat>, level: nat, now: nat)
    requires 1 <= level < 5 && Indexed(index, now, level) && Base(level, now, true) == Base(level, now, false) + 1
    ensures index[level] == Base(level, now, false) % 64
    ensures (index[level] + 1) % 64 == Base(level, now, true) % 64
    ensures Indexed(index[level := (index[level] + 1) % 64], now, level + 1)
  {
    hide Base, Bases;
    BasesAt(level, now, level);
    var index' := index[level := (index[level] + 1) % 64];
    forall l | 1 <= l < 5
      ensures index'[l] == Bases(now, level + 1)[l] % 64
    {
      BasesAt(level, now, l);
      assert index[l] == Bases(now, level)[l] % 64;
    }
  }

  /** The index of a level that was cascaded moves on by one. */
  lemma {:induction false} IndexAfter(index: seq<nat>, level: nat, now: nat)
    requires 1 <= level < 5 && now % Unit(level) == 0 && Indexed(index, now, level)
    ensures index[level] == now / Unit(level) % 64
    ensures (index[level] + 1) % 64 == Base(level, now, true) % 64
    ensures Indexed(index[level := (index[level] + 1) % 64], now, level + 1)
  {
    hide Indexed;
    NextBase(level, now);
    BaseSettled(level, now);
    IndexStep(index, level, now);
  }

  lemma {:induction false} IndexIsTick(index: seq<nat>, now: nat)
    requires Indexed(index, now, 5)
    ensures index[0] == now % 256 < QUEUED
  {
  }

  lemma {:induction false} KeepsClock(s: State, order: seq<Key>, env: Env)
    requires Fresh(s) && IsDue(s, order)
    ensures Tick(s, order, env).jiffies == s.jiffies && Tick(s, order, env).now == s.now + 1
  {
    TakeAllTakes(s, order, env);
  }

  lemma {:induction false} NextBase(level: nat, now: nat)
    requires level < 5 && now % Unit(level) == 0
    ensures Base(level, now, true) == Base(level, now, false) + 1
  {
    BaseSettled(level, now);
  }

  lemma {:induction false} BasesAt(level: nat, now: nat, l: nat)
    requires level < 5 && l < 5
    ensures Bases(now, level)[level] == Base(level, now, false)
    ensures Bases(now, level + 1)[l] == if l == level then Base(level, now, true) else Bases(now, level)[l]
  {
  }

  lemma {:induction false} UnitBound(level: nat)
    requires level < 5
    ensures Unit(level) < UINT_LIMIT
  {
  }

  lemma {:induction false} RootIgnoresBase(w: nat, e: nat, now: nat, b: nat, b': nat)
    requires w < QUEUED
    ensures LevelOf(w) == 0 ==> (InSlot(w, e, now, b) <==> InSlot(w, e, now, b'))
  {
  }

  lemma {:induction false} CascadeStart(v: seq<seq<Key>>, place: map<Key, nat>, timers: map<Key, Timer>, index: seq<nat>, now: nat)
    requires Wheel(v, place, timers, now, Bases(now, 0), {}) && Indexed(index, now, 0)
    ensures Wheel(v, place, timers, now, Bases(now, 1), {}) && Indexed(index, now, 1)
    ensures index[0] == 0 <==> now % Unit(1) == 0
  {
    forall w, k | 0 <= w < QUEUED && k in v[w]
      ensures k in timers && InSlot(w, timers[k].expires, now, Bases(now, 1)[LevelOf(w)])
    {
      assert InSlot(w, timers[k].expires, now, Bases(now, 0)[LevelOf(w)]);
    }
  }

  lemma {:induction false} CascadeEnd(v: seq<seq<Key>>, place: map<Key, nat>, timers: map<Key, Timer>, index: seq<nat>, now: nat, last: nat)
    requires last < 5 && Wheel(v, place, timers, now, Bases(now, last + 1), {}) && Indexed(index, now, last + 1)
    requires last < 4 ==> now % Unit(last + 1) != 0
    ensures Wheel(v, place, timers, now, Bases(now, 5), {}) && Indexed(index, now, 5)
  {
    hide Sorted, Filed, Unit, Base;
    AllCascaded(v, timers, now, last + 1);
    var b, b5 := Bases(now, last + 1), Bases(now, 5);
    forall l | 1 <= l < 5
      ensures index[l] == b5[l] % 64
    {
      assert b[1..][l - 1] == b5[1..][l - 1];
    }
  }

  /** The tick's slot holds exactly what is due, and with it empty the wheel is ready for the
      next tick. */
  lemma {:induction false} SlotIsDue(v: seq<seq<Key>>, place: map<Key, nat>, s: State)
    requires Wheel(v, place, s.timers, s.now, Bases(s.now, 5), {}) && v[QUEUED] == []
    ensures IsDue(s, v[s.now % 256])
  {
    hide InSlot;
    var slot := s.now % 256;
    forall k | k in s.timers
      ensures k in v[slot] <==> s.timers[k].expires <= s.now
    {
      var w := place[k];
      assert k in v[w];
      DueSlot(w, s.timers[k].expires, s.now);
    }
  }

  lemma {:induction false} NextTickSorted(v: seq<seq<Key>>, timers: map<Key, Timer>, now: nat)
    requires |v| == LISTS && Sorted(v, timers, now, Bases(now, 5)) && v[now % 256] == []
    ensures Sorted(v, timers, now + 1, Bases(now + 1, 0))
  {
    hide InSlot;
    forall w, k | 0 <= w < QUEUED && k in v[w]
      ensures k in timers && InSlot(w, timers[k].expires, now + 1, Bases(now + 1, 0)[LevelOf(w)])
    {
      DueSlot(w, timers[k].expires, now);
    }
  }

  /** With the tick's slot empty, the wheel is ready for the next tick as it stands. */
  lemma {:induction false} NextTick(v: seq<seq<Key>>, place: map<Key, nat>, timers: map<Key, Timer>, index: seq<nat>, now: nat)
    requires Wheel(v, place, timers, now, Bases(now, 5), {}) && Indexed(index, now, 5) && v[now % 256] == []
    ensures Wheel(v, place, timers, now + 1, Bases(now + 1, 0), {})
    ensures Indexed(index[0 := (index[0] + 1) % 256], now + 1, 0)
  {
    hide Sorted, Base, Unit;
    NextTickSorted(v, timers, now);
    forall l | 1 <= l < 5
      ensures index[l] == Bases(now + 1, 0)[l] % 64
    {
      BaseSettled(l, now);
      assert Bases(now + 1, 0)[l] == Bases(now, 5)[l];
    }
  }

  /** The slot a timer is put in, whichever levels were cascaded for this tick, is where it
      belongs. */
  lemma {:induction false} SlotIsSorted(e: nat, index: seq<nat>, now: nat, level: nat)
    requires Indexed(index, now, level) && e - now < UINT_LIMIT
    ensures var w := SlotFor(e, now, index[0]);
            w < QUEUED && InSlot(w, e, now, Bases(now, level)[LevelOf(w)])
  {
    hide SlotFor, InSlot;
    var w := SlotFor(e, now, now % 256);
    assert index[0] == now % 256;
    SlotForBelongs(e, now, true);
    SlotForBelongs(e, now, false);
  }

  class TimerWheel {
    var jiffies: nat
    var timerJiffies: nat
    const vec: array<seq<Key>>
    const index: array<nat>
    /** `run_timer_list_running` is set. */
    var running: bool
    var timers: map<Key, Timer>
    var nextKey: Key
    /** History: the callbacks run, with their ticks. */
    var log: seq<(nat, Key)>
    ghost var place: map<Key, nat>

    ghost function View(): State
      reads this
    {
      State(jiffies, timerJiffies, timers, nextKey, log)
    }

    /** The wheel with the levels below `level` cascaded for this tick. */
    ghost predicate Holds(level: nat, loose: set<Key>)
      reads this, vec, index
    {
      && vec.Length == LISTS && index.Length == 5
      && Wheel(vec[..], place, timers, timerJiffies, Bases(timerJiffies, level), loose)
      && Indexed(index[..], timerJiffies, level)
      && Fresh(View())
    }

    /** Between ticks. */
    ghost predicate Valid()
      reads this, vec, index
    {
      Holds(0, {}) && !running && vec[QUEUED] == [] && TimerSpec.Inv(View())
    }

    /** While a tick runs: what is queued was armed no later than this. */
    ghost predicate QueueNear()
      reads this, vec
      requires vec.Length == LISTS
    {
      forall k :: k in vec[QUEUED] ==> k in timers && timers[k].expires <= jiffies + UINT_LIMIT / TICK_MSEC
    }

    constructor ()
      ensures Valid() && Init(View())
    {
      jiffies, timerJiffies, running := 0, 0, false;
      timers, nextKey, log := map[], FIRST_KEY, [];
      vec := new seq<Key>[LISTS](_ => []);
      index := new nat[5](_ => 0);
      place := map[];
    }

    /** Files the loose timer `k` at the tail of its list. */
    method InternalAddTimer(k: Key, ghost level: nat, ghost loose: set<Key>)
      requires Holds(level, loose) && k in loose && timers[k].expires - timerJiffies < UINT_LIMIT
      modifies vec, this`place
      ensures Holds(level, loose - {k})
      ensures var w := if running then QUEUED else SlotFor(timers[k].expires, timerJiffies, index[0]);
              w < LISTS && (w == QUEUED <==> running) && vec[..] == old(vec[..])[w := old(vec[..])[w] + [k]]
    {
      hide SlotFor, InSlot, Bases, Indexed, Sorted, Filed, LevelOf;
      var w := QUEUED;
      if !running {
        w := SlotFor(timers[k].expires, timerJiffies, index[0]);
        SlotIsSorted(timers[k].expires, index[..], timerJiffies, level);
      }
      FileTail(vec[..], place, timers, timerJiffies, Bases(timerJiffies, level), loose, k, w);
      vec[w] := vec[w] + [k];
      place := place[k := w];
    }

    /** Takes the first timer of the level's current slot and files it afresh. */
    method MoveDown(level: nat, head: nat)
      requires Holds(level, {}) && !running && 1 <= level < 5 && timerJiffies % Unit(level) == 0
      requires head == First(level) + index[level] < QUEUED && vec[head] != []
      modifies vec, this`place
      ensures Holds(level, {}) && vec[head] == old(vec[head])[1..] && vec[QUEUED] == old(vec[QUEUED])
    {
      ghost var now := timerJiffies;
      hide InSlot, Sorted, Filed, Base, Unit, SlotFor, Bases;
      var curr := vec[head][0];
      IndexAfter(index[..], level, now);
      LevelOfFirst(level, index[level]);
      HeadIsSorted(vec[..], place, timers, now, Bases(now, level), head);
      assert Bases(now, level)[level] == Base(level, now, false) by { BasesAt(level, now, level); }
      CascadeGoesDown(level, timers[curr].expires, now);
      UnitBound(level);
      UnfileHead(vec[..], place, timers, now, Bases(now, level), {}, head);
      vec[head] := vec[head][1..];
      place := place - {curr};
      SlotForBelongs(timers[curr].expires, now, true);
      InternalAddTimer(curr, level, {curr});
    }

    /** Moves every timer of the level's current slot down. */
    method CascadeTimers(level: nat)
      requires Holds(level, {}) && !running && 1 <= level < 5 && timerJiffies % Unit(level) == 0
      modifies vec, index, this`place
      ensures Holds(level + 1, {}) && vec[QUEUED] == old(vec[QUEUED])
      ensures index[level] == Base(level, timerJiffies, true) % 64
    {
      hide InSlot, Sorted, Filed, Base, Unit, Bases, Indexed;
      ghost var now := timerJiffies;
      IndexAfter(index[..], level, now);
      LevelOfFirst(level, index[level]);
      var head := First(level) + index[level];
      while vec[head] != []
        invariant Holds(level, {}) && vec[QUEUED] == old(vec[QUEUED]) && index[..] == old(index[..])
        decreases |vec[head]|
      {
        MoveDown(level, head);
      }
      CascadedSorted(vec[..], timers, now, level);
      index[level] := (index[level] + 1) % 64;
      assert index[..] == old(index[..])[level := (old(index[level]) + 1) % 64];
    }

    // ---- Calls of the interface ----

    /** `Act` on the wheel, while a tick runs or between ticks; `loose` is the timer whose
        callback is running. */
    method Perform(a: Action, ghost level: nat, ghost loose: set<Key>)
      requires Holds(level, loose) && QueueNear() && timerJiffies <= jiffies + 1 && (!running ==> level == 0)
      requires jiffies <= timerJiffies + 1
      modifies vec, this`place, this`timers, this`nextKey
      ensures Holds(level, loose) && QueueNear() && View() == Act(old(View()), a)
      ensures running ==> vec[..QUEUED] == old(vec[..QUEUED])
      ensures !running ==> vec[QUEUED] == old(vec[QUEUED])
    {
      hide InSlot, Sorted, Filed, Base, Unit, SlotFor, Bases, Indexed, Period, NoDuplicates;
      ghost var now, bases := timerJiffies, Bases(timerJiffies, level);
      match a {
        case Add(msec, seen) =>
          var at := if seen <= jiffies then seen else jiffies;
          var key := nextKey;
          nextKey := nextKey + 1;
          ghost var timers0 := timers;
          timers := timers[key := Timer(ExpireTime(at, msec), msec, false)];
          Retimed(vec[..], place, timers0, timers, now, bases, loose, loose + {key});
          InternalAddTimer(key, level, loose + {key});
          assert loose + {key} - {key} == loose;
        case Delete(k) =>
          if k in timers {
            ghost var timers0 := timers;
            timers := timers[k := timers[k].(removed := true)];
            Retimed(vec[..], place, timers0, timers, now, bases, loose, loose);
          }
        case SetMsec(k, msec) =>
          if k in timers {
            ghost var timers0 := timers;
            timers := timers[k := timers[k].(msec := msec)];
            Retimed(vec[..], place, timers0, timers, now, bases, loose, loose);
          }
      }
    }

    /** What runs while a callback runs. */
    method PerformAll(actions: seq<Action>, ghost loose: set<Key>)
      requires Holds(5, loose) && QueueNear() && running && timerJiffies <= jiffies <= timerJiffies + 1
      modifies vec, this`place, this`timers, this`nextKey
      ensures Holds(5, loose) && QueueNear() && View() == ActAll(old(View()), actions)
      ensures vec[..QUEUED] == old(vec[..QUEUED])
    {
      hide Wheel, Bases, Indexed, Act;
      var i := 0;
      ghost var s0 := View();
      while i < |actions|
        invariant i <= |actions| && Holds(5, loose) && QueueNear() && vec[..QUEUED] == old(vec[..QUEUED])
        invariant timerJiffies == old(timerJiffies) && jiffies == old(jiffies)
        invariant ActAll(View(), actions[i..]) == ActAll(s0, actions)
      {
        assert actions[i..][0] == actions[i] && actions[i..][1..] == actions[i + 1..];
        Perform(actions[i], 5, loose);
        i := i + 1;
      }
      assert actions[i..] == [];
    }

    /** Takes the first timer of the tick's slot, runs its callback and arms it again. */
    method TakeFirst(slot: nat, env: Env)
      requires Holds(5, {}) && QueueNear() && running && timerJiffies <= jiffies <= timerJiffies + 1
      requires slot < QUEUED && vec[slot] != []
      modifies vec, this`place, this`timers, this`nextKey, this`log
      ensures Holds(5, {}) && QueueNear() && View() == Take(old(View()), old(vec[slot][0]), env)
      ensures vec[slot] == old(vec[slot])[1..]
    {
      hide Wheel, Bases, Indexed, ActAll;
      var curr := Detach(slot);
      if timers[curr].removed {
        Finish(curr, false);
      } else {
        var r := env(curr, timerJiffies);
        log := log + [(timerJiffies, curr)];
        ghost var s1 := View();
        PerformAll(r.actions, {curr});
        ActAllGrows(s1, r.actions, curr);
        Finish(curr, r.repeats);
      }
    }

    method Detach(slot: nat) returns (curr: Key)
      requires Holds(5, {}) && QueueNear() && slot < QUEUED && vec[slot] != []
      modifies vec, this`place
      ensures Holds(5, {curr}) && QueueNear() && curr in timers
      ensures curr == old(vec[slot][0]) && vec[slot] == old(vec[slot])[1..]
    {
      hide InSlot, Sorted, Filed, Bases, Indexed;
      curr := vec[slot][0];
      UnfileHead(vec[..], place, timers, timerJiffies, Bases(timerJiffies, 5), {}, slot);
      vec[slot] := vec[slot][1..];
      place := place - {curr};
      assert {} + {curr} == {curr};
    }

    /** `reuse_timer`: arms the timer again, or frees it. */
    method Finish(curr: Key, repeats: bool)
      requires Holds(5, {curr}) && QueueNear() && running && curr in timers && timerJiffies <= jiffies <= timerJiffies + 1
      modifies vec, this`place, this`timers
      ensures Holds(5, {}) && QueueNear() && vec[..QUEUED] == old(vec[..QUEUED])
      ensures timers == if repeats then old(timers)[curr := old(timers)[curr].(expires := ExpireTime(jiffies, old(timers)[curr].msec))]
                        else old(timers) - {curr}
    {
      hide InSlot, Sorted, Filed, Bases, Indexed;
      ghost var now, bases, timers0 := timerJiffies, Bases(timerJiffies, 5), timers;
      LooseNotFiled(vec[..], place, timers, now, bases, {curr}, curr);
      if repeats {
        timers := timers[curr := timers[curr].(expires := ExpireTime(jiffies, timers[curr].msec))];
        Retimed(vec[..], place, timers0, timers, now, bases, {curr}, {curr});
        InternalAddTimer(curr, 5, {curr});
      } else {
        timers := timers - {curr};
        Retimed(vec[..], place, timers0, timers, now, bases, {curr}, {});
      }
    }

    // ---- run_timer_list ----

    /** Cascades the levels whose turn it is. */
    method Cascade()
      requires Holds(0, {}) && !running
      modifies vec, index, this`place
      ensures Holds(5, {}) && vec[QUEUED] == old(vec[QUEUED])
    {
      hide Wheel, Bases, Base, Unit;
      ghost var now := timerJiffies;
      CascadeStart(vec[..], place, timers, index[..], now);
      if index[0] == 0 {
        var n := 1;
        CascadeTimers(n);
        while index[n] == 1 && n < 4
          invariant 1 <= n < 5 && Holds(n + 1, {}) && vec[QUEUED] == old(vec[QUEUED])
          invariant now % Unit(n) == 0 && index[n] == Base(n, now, true) % 64
        {
          NextLevel(n, now);
          n := n + 1;
          CascadeTimers(n);
        }
        if n < 4 {
          NextLevel(n, now);
        }
        CascadeEnd(vec[..], place, timers, index[..], now, n);
      } else {
        CascadeEnd(vec[..], place, timers, index[..], now, 0);
      }
    }

    /** Files what was queued while the tick ran. */
    method Requeue()
      requires Holds(0, {}) && !running && QueueNear() && jiffies <= timerJiffies + 1
      modifies vec, this`place
      ensures Holds(0, {}) && vec[QUEUED] == []
    {
      hide InSlot, Sorted, Filed, Base, Unit, SlotFor, Bases, Indexed;
      while vec[QUEUED] != []
        invariant Holds(0, {}) && QueueNear()
        decreases |vec[QUEUED]|
      {
        var curr := vec[QUEUED][0];
        UnfileHead(vec[..], place, timers, timerJiffies, Bases(timerJiffies, 0), {}, QUEUED);
        vec[QUEUED] := vec[QUEUED][1..];
        place := place - {curr};
        InternalAddTimer(curr, 0, {curr});
      }
    }

    /** One tick: exactly the timers due are taken, each once. */
    method RunTick(env: Env) returns (ghost order: seq<Key>)
      requires Valid() && timerJiffies <= jiffies
      modifies this, vec, index
      ensures Valid()
      ensures IsDue(old(View()), order) && View() == Tick(old(View()), order, env)
    {
      hide Wheel, Base, Unit, Bases, Take, Fresh, IsDue, Indexed;
      ghost var s0 := View();
      Cascade();
      running := true;
      SlotIsDue(vec[..], place, View());
      IndexIsTick(index[..], timerJiffies);
      var slot := index[0];
      order := vec[slot];
      ghost var i := 0;
      while vec[slot] != []
        invariant Holds(5, {}) && QueueNear() && running && i <= |order| && vec[slot] == order[i..]
        invariant jiffies == s0.jiffies && timerJiffies == s0.now && index[0] == slot
        invariant View() == TakeAll(s0, order[..i], env)
        decreases |vec[slot]|
      {
        assert order[..i + 1][..i] == order[..i];
        TakeFirst(slot, env);
        i := i + 1;
      }
      assert order[..i] == order;
      running := false;
      NextTick(vec[..], place, timers, index[..], timerJiffies);
      timerJiffies := timerJiffies + 1;
      index[0] := (index[0] + 1) % 256;
      assert TimerSpec.Inv(View()) by { StepKeeps(s0, Run(order), View(), env); }
      Requeue();
    }

    /** `timer_process`: the clock moves on and the ticks up to it run, which is one tick, or
        two the first time. */
    method TimerProcess(env: Env) returns (ghost orders: seq<seq<Key>>)
      requires Valid() && (timerJiffies == jiffies + 1 || (timerJiffies == 0 && jiffies == 0))
      modifies this, vec, index
      ensures Valid() && jiffies == old(jiffies) + 1 && timerJiffies == jiffies + 1
      ensures |orders| == if old(timerJiffies) == 0 then 2 else 1
      ensures Ticks(old(View()).(jiffies := jiffies), orders, env, View())
    {
      hide Wheel, Bases, Indexed, IsDue;
      jiffies := jiffies + 1;
      ghost var s0 := View();
      orders := [];
      while jiffies >= timerJiffies
        invariant Valid() && jiffies == old(jiffies) + 1 && timerJiffies <= jiffies + 1
        invariant Ticks(s0, orders, env, View()) && timerJiffies == old(timerJiffies) + |orders|
      {
        ghost var s := View();
        ghost var order := RunTick(env);
        KeepsClock(s, order, env);
        TicksAppend(s0, orders, env, s, order);
        orders := orders + [order];
      }
    }

    // ---- The interface, between ticks ----

    method TimerAdd(msec: int, seen: nat) returns (key: Key)
      requires Valid()
      modifies vec, this`place, this`timers, this`nextKey
      ensures Valid() && key == old(nextKey) && View() == Act(old(View()), Add(msec, seen))
      ensures nextKey == key + 1 && key in timers && timers[key].msec == msec && !timers[key].removed
      ensures FitsInt(msec) ==> IsPeriod(msec, timers[key].expires - if seen <= jiffies then seen else jiffies)
      ensures timers == old(timers)[key := timers[key]]
    {
      hide Wheel, Bases, Indexed;
      key := nextKey;
      ghost var s := View();
      Perform(Add(msec, seen), 0, {});
      ActGrows(s, Add(msec, seen), 0);
    }

    method TimerDelete(key: Key)
      requires Valid()
      modifies vec, this`place, this`timers, this`nextKey
      ensures Valid() && View() == Act(old(View()), Delete(key))
      ensures key in old(timers) ==> timers == old(timers)[key := old(timers)[key].(removed := true)]
      ensures key !in old(timers) ==> timers == old(timers)
    {
      hide Wheel, Bases, Indexed;
      if key == 0 {
        return;
      }
      ghost var s := View();
      Perform(Delete(key), 0, {});
      ActGrows(s, Delete(key), 0);
    }

    method TimerSetMsec(key: Key, msec: int)
      requires Valid()
      modifies vec, this`place, this`timers, this`nextKey
      ensures Valid() && View() == Act(old(View()), SetMsec(key, msec))
      ensures key in old(timers) ==> timers == old(timers)[key := old(timers)[key].(msec := msec)]
      ensures key !in old(timers) ==> timers == old(timers)
    {
      hide Wheel, Bases, Indexed;
      if key == 0 {
        return;
      }
      ghost var s := View();
      Perform(SetMsec(key, msec), 0, {});
      ActGrows(s, SetMsec(key, msec), 0);
    }
  }
}

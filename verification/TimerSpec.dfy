/** lib/util/utilTimer.c seen as a plain set of timers: on tick T those with `expires <= T`
    are taken, in some order, and their callbacks run. */
module TimerSpec {
  import opened Arithmetic

  type Key = nat

  const TICK_MSEC: nat := 50
  const FIRST_KEY: Key := 0x0509_2014

  datatype Timer = Timer(expires: nat, msec: int, removed: bool)

  /** What other threads, and the callback itself, do through the interface while a callback
      runs. `seen` is the tick count read before the lock was taken. */
  datatype Action = Add(msec: int, seen: nat) | Delete(key: Key) | SetMsec(key: Key, msec: int)

  datatype Reaction = Reaction(repeats: bool, actions: seq<Action>)

  /** What happens while the callback of a timer runs on a tick. */
  type Env = (Key, nat) -> Reaction

  /** `now` is the tick to run next (`timer_jiffies`); `log` is history: the callbacks run,
      with their ticks. */
  datatype State = State(jiffies: nat, now: nat, timers: map<Key, Timer>, nextKey: Key, log: seq<(nat, Key)>)

  /** Ticks from arming to expiry: `msec` is passed on as `uint32_t`, and never less than one. */
  function Period(msec: int): (p: nat)
    ensures 1 <= p <= UINT_LIMIT / TICK_MSEC
    ensures 50 <= msec < INT_LIMIT ==> 50 * p <= msec < 50 * p + 50
    ensures 0 <= msec < 50 ==> p == 1
    ensures -0x8000_0000 <= msec < 0 ==> 50 * p <= 0x1_0000_0000 + msec < 50 * p + 50
  {
    var ticks := msec % UINT_LIMIT / TICK_MSEC;
    if ticks == 0 then 1 else ticks
  }

  function ExpireTime(jiffies: nat, msec: int): nat
  {
    jiffies + Period(msec)
  }

  /** `d` ticks of 50 ms each are as many as fit in `msec`, but at least one; a negative `msec`
      counts as 2^32 more. */
  predicate IsPeriod(msec: int, d: int)
  {
    var u := if msec < 0 then 0x1_0000_0000 + msec else msec;
    if u < 50 then d == 1 else 50 * d <= u < 50 * d + 50
  }

  predicate FitsInt(msec: int)
  {
    -0x8000_0000 <= msec < 0x8000_0000
  }

  /** The interface. A reading of `jiffies` later than the clock is no reading. */
  function Act(s: State, a: Action): State
  {
    match a
    case Add(msec, seen) =>
      var at := if seen <= s.jiffies then seen else s.jiffies;
      s.(timers := s.timers[s.nextKey := Timer(ExpireTime(at, msec), msec, false)], nextKey := s.nextKey + 1)
    case Delete(k) =>
      if k in s.timers then s.(timers := s.timers[k := s.timers[k].(removed := true)]) else s
    case SetMsec(k, msec) =>
      if k in s.timers then s.(timers := s.timers[k := s.timers[k].(msec := msec)]) else s
  }

  function ActAll(s: State, actions: seq<Action>): State
    decreases |actions|
  {
    if actions == [] then s else ActAll(Act(s, actions[0]), actions[1..])
  }

  /** Taking one expired timer: its callback runs unless the timer was deleted, and it is
      armed again or freed. */
  function Take(s: State, k: Key, env: Env): State
  {
    if k !in s.timers then s
    else if s.timers[k].removed then s.(timers := s.timers - {k})
    else
      var r := env(k, s.now);
      var s1 := ActAll(s.(log := s.log + [(s.now, k)]), r.actions);
      if r.repeats && k in s1.timers then
        s1.(timers := s1.timers[k := s1.timers[k].(expires := ExpireTime(s1.jiffies, s1.timers[k].msec))])
      else
        s1.(timers := s1.timers - {k})
  }

  function TakeAll(s: State, order: seq<Key>, env: Env): State
  {
    if order == [] then s else Take(TakeAll(s, order[..|order| - 1], env), order[|order| - 1], env)
  }

  ghost predicate NoDuplicates<T>(s: seq<T>)
  {
    forall i, j :: 0 <= i < j < |s| ==> s[i] != s[j]
  }

  /** `order` lists exactly the timers due on the tick, each once. */
  ghost predicate IsDue(s: State, order: seq<Key>)
  {
    && NoDuplicates(order)
    && (forall k :: k in order <==> k in s.timers && s.timers[k].expires <= s.now)
  }

  function Tick(s: State, order: seq<Key>, env: Env): State
  {
    var s1 := TakeAll(s, order, env);
    s1.(now := s1.now + 1)
  }

  /** Ticks run one after another, `orders` being what each took. */
  ghost predicate Ticks(s: State, orders: seq<seq<Key>>, env: Env, s': State)
    decreases |orders|
  {
    if orders == [] then s' == s
    else s.now <= s.jiffies && IsDue(s, orders[0]) && Ticks(Tick(s, orders[0], env), orders[1..], env, s')
  }

  lemma {:induction false} TicksAppend(s: State, orders: seq<seq<Key>>, env: Env, s': State, order: seq<Key>)
    requires Ticks(s, orders, env, s') && s'.now <= s'.jiffies && IsDue(s', order)
    ensures Ticks(s, orders + [order], env, Tick(s', order, env))
    decreases |orders|
  {
    if orders == [] {
      assert Ticks(Tick(s, order, env), [], env, Tick(s', order, env));
      assert [order][1..] == [];
    } else {
      TicksAppend(Tick(s, orders[0], env), orders[1..], env, s', order);
      assert (orders + [order])[1..] == orders[1..] + [order];
    }
  }

  // ---- Runs ----

  datatype Event = Advance | Run(order: seq<Key>) | Call(action: Action)

  /** The clock moves only when the ticks before it have run. */
  ghost predicate Step(s: State, e: Event, s': State, env: Env)
  {
    match e
    case Advance => (s.now == s.jiffies + 1 || (s.now == 0 && s.jiffies == 0)) && s' == s.(jiffies := s.jiffies + 1)
    case Run(order) => s.now <= s.jiffies && IsDue(s, order) && s' == Tick(s, order, env)
    case Call(a) => s' == Act(s, a)
  }

  ghost predicate Init(s: State)
  {
    s.jiffies == 0 && s.now == 0 && s.timers == map[] && s.nextKey == FIRST_KEY && s.log == []
  }

  ghost predicate IsRun(es: seq<Event>, states: seq<State>, env: Env)
  {
    && |states| == |es| + 1 && Init(states[0])
    && forall i :: 0 <= i < |es| ==> Step(states[i], es[i], states[i + 1], env)
  }

  // ---- What one take changes ----

  ghost predicate Fresh(s: State)
  {
    0 < s.nextKey && forall k :: k in s.timers ==> 0 < k < s.nextKey && s.timers[k].expires > 0
  }

  predicate SetsMsec(a: Action, x: Key)
  {
    a.SetMsec? && a.key == x
  }

  predicate Deletes(a: Action, x: Key)
  {
    a.Delete? && a.key == x
  }

  /** No callback deletes `x`. */
  ghost predicate LeavesArmed(env: Env, x: Key)
  {
    forall k, t, i :: 0 <= i < |env(k, t).actions| ==> !Deletes(env(k, t).actions[i], x)
  }

  /** No callback sets the period of `x`. */
  ghost predicate LeavesMsec(env: Env, x: Key)
  {
    forall k, t, i :: 0 <= i < |env(k, t).actions| ==> !SetsMsec(env(k, t).actions[i], x)
  }

  /** A timer that stays armed keeps its expiry and, once there, its delete mark. */
  ghost predicate Stays(t: Timer, t': Timer)
  {
    t'.expires == t.expires && (t.removed ==> t'.removed)
  }

  /** How callbacks and other threads may change the set: timers appear, none goes, and none
      is armed anew. */
  ghost predicate Grows(s: State, s': State)
  {
    && Fresh(s') && s'.now == s.now && s'.jiffies == s.jiffies && s.nextKey <= s'.nextKey && s'.log == s.log
    && (forall x :: x in s.timers ==> x in s'.timers && Stays(s.timers[x], s'.timers[x]))
    && (forall x :: x in s'.timers && x !in s.timers ==>
          s.nextKey <= x && s'.timers[x].expires <= s.jiffies + UINT_LIMIT / TICK_MSEC)
  }

  lemma {:induction false} ActGrows(s: State, a: Action, x: Key)
    requires Fresh(s)
    ensures Grows(s, Act(s, a))
    ensures x in s.timers && !SetsMsec(a, x) ==> Act(s, a).timers[x].msec == s.timers[x].msec
    ensures x in s.timers && !Deletes(a, x) ==> Act(s, a).timers[x].removed == s.timers[x].removed
  {
  }

  lemma {:induction false} ActAllGrows(s: State, actions: seq<Action>, x: Key)
    requires Fresh(s)
    ensures Grows(s, ActAll(s, actions))
    ensures x in s.timers && (forall i :: 0 <= i < |actions| ==> !SetsMsec(actions[i], x)) ==>
              ActAll(s, actions).timers[x].msec == s.timers[x].msec
    ensures x in s.timers && (forall i :: 0 <= i < |actions| ==> !Deletes(actions[i], x)) ==>
              ActAll(s, actions).timers[x].removed == s.timers[x].removed
    decreases |actions|
  {
    if actions != [] {
      ActGrows(s, actions[0], x);
      ActAllGrows(Act(s, actions[0]), actions[1..], x);
    }
  }

  /** What taking `k` does to `k` and to the rest. */
  ghost predicate Taken(s: State, s': State, k: Key, env: Env)
    requires k in s.timers
  {
    && Fresh(s') && s'.now == s.now && s'.jiffies == s.jiffies && s.nextKey <= s'.nextKey
    && (forall x :: x in s.timers && x != k ==> x in s'.timers && Stays(s.timers[x], s'.timers[x]))
    && (forall x :: x in s'.timers && x !in s.timers ==> s.nextKey <= x)
    && s'.log == s.log + (if s.timers[k].removed then [] else [(s.now, k)])
    && (k in s'.timers <==> !s.timers[k].removed && env(k, s.now).repeats)
    && (k in s'.timers ==> s'.timers[k].expires == ExpireTime(s.jiffies, s'.timers[k].msec))
  }

  lemma {:induction false} TakeTakes(s: State, k: Key, env: Env, x: Key)
    requires Fresh(s) && k in s.timers
    ensures Taken(s, Take(s, k, env), k, env)
    ensures LeavesMsec(env, x) && x in s.timers && x in Take(s, k, env).timers ==>
              Take(s, k, env).timers[x].msec == s.timers[x].msec
    ensures LeavesArmed(env, x) && x in s.timers && x in Take(s, k, env).timers ==>
              Take(s, k, env).timers[x].removed == s.timers[x].removed
  {
    if !s.timers[k].removed {
      ActAllGrows(s.(log := s.log + [(s.now, k)]), env(k, s.now).actions, x);
    }
  }

  /** What taking the timers of `order` does: those not in it stay; those in it are gone or
      armed later than the clock; each had its callback run at most once, and only if it was
      not deleted. */
  ghost predicate AllTaken(s: State, s': State, order: seq<Key>)
  {
    && Fresh(s') && s'.now == s.now && s'.jiffies == s.jiffies && s.nextKey <= s'.nextKey
    && (forall x :: x in s.timers && x !in order ==> x in s'.timers && Stays(s.timers[x], s'.timers[x]))
    && (forall x :: x in s'.timers && x !in s.timers ==> s.nextKey <= x)
    && (forall x :: x in s'.timers && x in s.timers && x in order ==> s'.timers[x].expires > s.jiffies && !s.timers[x].removed)
    && s.log <= s'.log
    && (forall i :: |s.log| <= i < |s'.log| ==>
          s'.log[i].0 == s.now && s'.log[i].1 in order && s'.log[i].1 in s.timers && !s.timers[s'.log[i].1].removed)
    && (forall i, j :: |s.log| <= i < j < |s'.log| ==> s'.log[i] != s'.log[j])
  }

  lemma {:induction false} TakenExtends(s: State, s1: State, s2: State, order: seq<Key>, k: Key, env: Env)
    requires Fresh(s) && AllTaken(s, s1, order) && k in s.timers && k !in order && k in s1.timers && Taken(s1, s2, k, env)
    ensures AllTaken(s, s2, order + [k])
  {
    forall x | x in s.timers && x !in order + [k]
      ensures x in s2.timers && Stays(s.timers[x], s2.timers[x])
    {
      assert x !in order && x != k;
    }
    forall x | x in s2.timers && x in s.timers && x in order + [k]
      ensures s2.timers[x].expires > s.jiffies && !s.timers[x].removed
    {
      assert x == k || (x in order && x in s1.timers);
    }
    forall i | |s.log| <= i < |s2.log|
      ensures s2.log[i].0 == s.now && s2.log[i].1 in order + [k] && s2.log[i].1 in s.timers && !s.timers[s2.log[i].1].removed
    {
      if i < |s1.log| {
        assert s2.log[i] == s1.log[i];
      }
    }
    forall i, j | |s.log| <= i < j < |s2.log|
      ensures s2.log[i] != s2.log[j]
    {
      assert s2.log[i] == s1.log[i];
    }
  }

  lemma {:induction false} TakeAllTakes(s: State, order: seq<Key>, env: Env)
    requires Fresh(s) && NoDuplicates(order) && forall k :: k in order ==> k in s.timers
    ensures AllTaken(s, TakeAll(s, order, env), order)
    decreases |order|
  {
    if order != [] {
      var n := |order| - 1;
      var pre, k := order[..n], order[n];
      assert order == pre + [k];
      assert forall x :: x in pre ==> x in order;
      TakeAllTakes(s, pre, env);
      var s1 := TakeAll(s, pre, env);
      assert k in order && k !in pre;
      TakeTakes(s1, k, env, k);
      TakenExtends(s, s1, Take(s1, k, env), pre, k, env);
    }
  }

  /** A timer whose period nobody touches is armed its own period after the clock. */
  lemma {:induction false} TakeAllRearms(s: State, order: seq<Key>, env: Env, x: Key)
    requires Fresh(s) && NoDuplicates(order) && (forall k :: k in order ==> k in s.timers)
    requires x in s.timers && LeavesMsec(env, x)
    ensures var s' := TakeAll(s, order, env);
            x in s'.timers ==>
              && s'.timers[x].msec == s.timers[x].msec
              && (x in order ==> s'.timers[x].expires == ExpireTime(s.jiffies, s.timers[x].msec) && (s.now, x) in s'.log)
    decreases |order|
  {
    if order != [] {
      var n := |order| - 1;
      var pre, k := order[..n], order[n];
      assert order == pre + [k];
      assert forall y :: y in pre ==> y in order;
      TakeAllTakes(s, pre, env);
      TakeAllTakes(s, order, env);
      TakeAllRearms(s, pre, env, x);
      var s1 := TakeAll(s, pre, env);
      assert k in order && k !in pre;
      TakeTakes(s1, k, env, x);
      if x == k {
        assert s.timers[x].removed || x in s1.timers;
      } else if x in pre && x !in s1.timers {
        GoneStaysGone(s, s1, k, env, x);
      }
    }
  }

  lemma {:induction false} GoneStaysGone(s: State, s1: State, k: Key, env: Env, x: Key)
    requires Fresh(s) && Fresh(s1) && s.nextKey <= s1.nextKey && x in s.timers && x !in s1.timers && k in s1.timers
    ensures x !in Take(s1, k, env).timers
  {
    TakeTakes(s1, k, env, k);
  }

  // ---- Whole runs ----

  /** The clock is at most one ahead of the last tick run, or is where it started. */
  ghost predicate Inv(s: State)
  {
    && Fresh(s)
    && (s.now == s.jiffies || s.now == s.jiffies + 1 || (s.now == 0 && s.jiffies == 1))
    && (forall i :: 0 <= i < |s.log| ==> s.log[i].0 < s.now && s.log[i].1 < s.nextKey)
    && (forall i, j :: 0 <= i < j < |s.log| ==> s.log[i] != s.log[j])
  }

  lemma {:induction false} StepKeeps(s: State, e: Event, s': State, env: Env)
    requires Inv(s) && Step(s, e, s', env)
    ensures Inv(s')
  {
    match e
    case Advance =>
    case Call(a) => ActGrows(s, a, 0);
    case Run(order) => TakeAllTakes(s, order, env);
  }

  lemma {:induction false} RunKeeps(es: seq<Event>, states: seq<State>, env: Env, i: nat)
    requires IsRun(es, states, env) && i < |states|
    ensures Inv(states[i])
  {
    if i > 0 {
      RunKeeps(es, states, env, i - 1);
      StepKeeps(states[i - 1], es[i - 1], states[i], env);
    }
  }

  /** No callback runs twice on one tick. */
  lemma {:induction false} NoCallbackTwice(es: seq<Event>, states: seq<State>, env: Env, m: nat, i: nat, j: nat)
    requires IsRun(es, states, env) && m < |states| && i < j < |states[m].log|
    ensures states[m].log[i] != states[m].log[j]
  {
    RunKeeps(es, states, env, m);
  }

  /** A tick leaves no timer that was there before it due: only late arrivals can be. */
  lemma {:induction false} TickLeavesNoneDue(es: seq<Event>, states: seq<State>, env: Env, i: nat, k: Key)
    requires IsRun(es, states, env) && i < |es| && es[i].Run?
    requires k in states[i].timers && k in states[i + 1].timers
    ensures states[i + 1].timers[k].expires >= states[i + 1].now
  {
    RunKeeps(es, states, env, i);
    TakeAllTakes(states[i], es[i].order, env);
    assert Step(states[i], es[i], states[i + 1], env);
  }

  // ---- Delete ----

  ghost predicate Gone(s: State, k: Key)
  {
    k < s.nextKey && (k in s.timers ==> s.timers[k].removed)
  }

  lemma {:induction false} StepKeepsGone(s: State, e: Event, s': State, env: Env, k: Key)
    requires Inv(s) && Step(s, e, s', env) && Gone(s, k)
    ensures Gone(s', k) && s.log <= s'.log
    ensures forall i :: |s.log| <= i < |s'.log| ==> s'.log[i].1 != k
  {
    match e
    case Advance =>
    case Call(a) => ActGrows(s, a, 0);
    case Run(order) =>
      TakeAllTakes(s, order, env);
  }

  lemma {:induction false} GoneNeverRuns(es: seq<Event>, states: seq<State>, env: Env, i: nat, j: nat, k: Key)
    requires IsRun(es, states, env) && i <= j < |states| && Gone(states[i], k)
    ensures Gone(states[j], k) && states[i].log <= states[j].log
    ensures forall a :: |states[i].log| <= a < |states[j].log| ==> states[j].log[a].1 != k
    decreases j
  {
    RunKeeps(es, states, env, i);
    if i < j {
      GoneNeverRuns(es, states, env, i, j - 1, k);
      RunKeeps(es, states, env, j - 1);
      StepKeepsGone(states[j - 1], es[j - 1], states[j], env, k);
    }
  }

  /** Once a timer is deleted its callback never runs again, however the callbacks of that or
      any later tick behave. */
  lemma {:induction false} DeletedNeverRuns(es: seq<Event>, states: seq<State>, env: Env, i: nat, j: nat, k: Key)
    requires IsRun(es, states, env) && i < |es| && i <= j < |states| && es[i] == Call(Delete(k)) && k < states[i].nextKey
    ensures states[i].log <= states[j].log
    ensures forall a :: |states[i].log| <= a < |states[j].log| ==> states[j].log[a].1 != k
  {
    if i < j {
      assert Step(states[i], es[i], states[i + 1], env);
      GoneNeverRuns(es, states, env, i + 1, j, k);
    }
  }

  lemma {:induction false} ActAllDeletes(s: State, actions: seq<Action>, q: nat, k: Key)
    requires Fresh(s) && q < |actions| && actions[q] == Delete(k) && k < s.nextKey
    ensures Gone(ActAll(s, actions), k)
    decreases |actions|
  {
    var s1 := Act(s, actions[0]);
    ActGrows(s, actions[0], k);
    if q == 0 {
      ActAllGrows(s1, actions[1..], k);
    } else {
      ActAllDeletes(s1, actions[1..], q - 1, k);
    }
  }

  /** The callback that an entry of the log is of deletes `d`. */
  ghost predicate CallbackDeletes(env: Env, entry: (nat, Key), d: Key)
  {
    exists q :: 0 <= q < |env(entry.1, entry.0).actions| && env(entry.1, entry.0).actions[q] == Delete(d)
  }

  lemma {:induction false} TakeDeletes(s: State, k: Key, env: Env, d: Key)
    requires Fresh(s) && k in s.timers && d < s.nextKey
    requires Gone(s, d) || (!s.timers[k].removed && CallbackDeletes(env, (s.now, k), d))
    ensures Gone(Take(s, k, env), d)
  {
    TakeTakes(s, k, env, d);
    if !Gone(s, d) {
      var actions := env(k, s.now).actions;
      var q :| 0 <= q < |actions| && actions[q] == Delete(d);
      ActAllDeletes(s.(log := s.log + [(s.now, k)]), actions, q, d);
    }
  }

  lemma {:induction false} TakeAllDeletes(s: State, order: seq<Key>, env: Env, p: nat, d: Key)
    requires Fresh(s) && NoDuplicates(order) && (forall k :: k in order ==> k in s.timers) && d < s.nextKey
    requires |s.log| <= p < |TakeAll(s, order, env).log| && CallbackDeletes(env, TakeAll(s, order, env).log[p], d)
    ensures Gone(TakeAll(s, order, env), d)
    ensures forall a :: p < a < |TakeAll(s, order, env).log| ==> TakeAll(s, order, env).log[a].1 != d
    decreases |order|
  {
    hide CallbackDeletes, Take;
    if order != [] {
      var n := |order| - 1;
      var pre, k := order[..n], order[n];
      assert order == pre + [k];
      assert forall y :: y in pre ==> y in order;
      var s1 := TakeAll(s, pre, env);
      TakeAllTakes(s, pre, env);
      assert k in order && k !in pre;
      TakeTakes(s1, k, env, d);
      if p < |s1.log| {
        assert Take(s1, k, env).log[p] == s1.log[p];
        TakeAllDeletes(s, pre, env, p, d);
      }
      TakeDeletes(s1, k, env, d);
    }
  }

  /** The same when a callback deletes the timer: entry `p` of the log is that callback's. */
  lemma {:induction false} CallbackDeletedNeverRuns(es: seq<Event>, states: seq<State>, env: Env, i: nat, j: nat, p: nat, d: Key)
    requires IsRun(es, states, env) && i < j < |states| && es[i].Run? && d < states[i].nextKey
    requires |states[i].log| <= p < |states[i + 1].log| && CallbackDeletes(env, states[i + 1].log[p], d)
    ensures states[i + 1].log <= states[j].log
    ensures forall a :: p < a < |states[j].log| ==> states[j].log[a].1 != d
  {
    RunKeeps(es, states, env, i);
    assert Step(states[i], es[i], states[i + 1], env);
    TakeAllDeletes(states[i], es[i].order, env, p, d);
    GoneNeverRuns(es, states, env, i + 1, j, d);
    assert forall a :: p < a < |states[i + 1].log| ==> states[j].log[a] == states[i + 1].log[a];
  }

  // ---- No drift ----

  /** Between two ticks that take it, a timer keeps its expiry. */
  lemma {:induction false} KeepsExpiry(es: seq<Event>, states: seq<State>, env: Env, i: nat, j: nat, k: Key)
    requires IsRun(es, states, env) && i <= j < |states| && k in states[i].timers
    requires forall a :: i <= a < j ==> !(es[a].Run? && k in es[a].order)
    ensures k in states[j].timers && states[j].timers[k].expires == states[i].timers[k].expires
    ensures states[i].now <= states[j].now
    ensures states[i].now < states[j].now ==> states[j].now <= states[i].timers[k].expires
    decreases j
  {
    if i < j {
      KeepsExpiry(es, states, env, i, j - 1, k);
      RunKeeps(es, states, env, j - 1);
      var s, e := states[j - 1], es[j - 1];
      assert Step(s, e, states[j], env);
      match e
      case Advance =>
      case Call(a) => ActGrows(s, a, k);
      case Run(order) => TakeAllTakes(s, order, env);
    }
  }

  /** A repeating timer whose period nobody touches runs exactly its period after it last ran:
      there is no drift, and no tick is missed. */
  lemma {:induction false} NoDrift(es: seq<Event>, states: seq<State>, env: Env, i: nat, j: nat, k: Key)
    requires IsRun(es, states, env) && i < j < |es| && es[i].Run? && es[j].Run?
    requires k in es[i].order && k in es[j].order && k in states[i].timers && k in states[i + 1].timers
    requires forall a :: i < a < j ==> !(es[a].Run? && k in es[a].order)
    requires LeavesMsec(env, k)
    ensures FitsInt(states[i].timers[k].msec) ==> IsPeriod(states[i].timers[k].msec, states[j].now - states[i].now)
    ensures (states[i].now, k) in states[i + 1].log
  {
    RunKeeps(es, states, env, i);
    assert Step(states[i], es[i], states[i + 1], env);
    TakeAllRearms(states[i], es[i].order, env, k);
    TakeAllTakes(states[i], es[i].order, env);
    KeepsExpiry(es, states, env, i + 1, j, k);
    assert Step(states[j], es[j], states[j + 1], env);
  }

  // ---- What the calls ask for ----

  lemma {:induction false} TakeAllSpares(s: State, order: seq<Key>, env: Env, x: Key)
    requires Fresh(s) && NoDuplicates(order) && (forall k :: k in order ==> k in s.timers)
    requires x in s.timers && !s.timers[x].removed && LeavesArmed(env, x)
    ensures x in order ==> (s.now, x) in TakeAll(s, order, env).log
    ensures x !in order ==> x in TakeAll(s, order, env).timers && !TakeAll(s, order, env).timers[x].removed
    decreases |order|
  {
    hide Take, LeavesArmed;
    if order != [] {
      var n := |order| - 1;
      var pre, k := order[..n], order[n];
      assert order == pre + [k];
      assert forall y :: y in pre ==> y in order;
      TakeAllTakes(s, pre, env);
      TakeAllSpares(s, pre, env, x);
      var s1 := TakeAll(s, pre, env);
      assert k in order && k !in pre;
      TakeTakes(s1, k, env, x);
      if x == k {
        assert Take(s1, k, env).log == s1.log + [(s.now, k)];
        assert Take(s1, k, env).log[|s1.log|] == (s.now, x);
      }
    }
  }

  /** Where a timer due on tick `due` is: armed for `expires` and yet to run, or run on that
      tick and not before. */
  ghost predicate Pending(s: State, x: Key, expires: nat, due: nat)
  {
    && x in s.timers && s.timers[x].expires == expires <= due && !s.timers[x].removed
    && s.now <= due && (s.now < due ==> due == expires)
    && (forall p :: 0 <= p < |s.log| ==> s.log[p].1 != x)
  }

  ghost predicate RanFirst(s: State, x: Key, due: nat)
  {
    (due, x) in s.log && forall p :: 0 <= p < |s.log| && s.log[p].1 == x ==> s.log[p].0 >= due
  }

  lemma {:induction false} StepRuns(s: State, e: Event, s': State, env: Env, x: Key, expires: nat, due: nat)
    requires Inv(s) && Step(s, e, s', env) && LeavesArmed(env, x) && !(e.Call? && Deletes(e.action, x))
    requires Pending(s, x, expires, due) || RanFirst(s, x, due)
    ensures Pending(s', x, expires, due) || RanFirst(s', x, due)
  {
    hide LeavesArmed, TakeAll, Act;
    match e
    case Advance =>
    case Call(a) => ActGrows(s, a, x);
    case Run(order) =>
      TakeAllTakes(s, order, env);
      if Pending(s, x, expires, due) {
        TakeAllSpares(s, order, env, x);
      } else {
        var p :| 0 <= p < |s.log| && s.log[p] == (due, x);
        assert s'.log[p] == (due, x);
        assert forall q :: 0 <= q < |s.log| ==> s'.log[q] == s.log[q];
      }
  }

  /** A timer added with `msec`, a period of `d` ticks, and not deleted, runs first on the tick
      that is `d` after the reading of the clock, or on the next tick if that one has passed. */
  lemma {:induction false} AddedRuns(es: seq<Event>, states: seq<State>, env: Env, i: nat, m: nat, msec: int, seen: nat, d: nat)
    requires IsRun(es, states, env) && i < m < |states| && es[i] == Call(Add(msec, seen))
    requires FitsInt(msec) && IsPeriod(msec, d) && LeavesArmed(env, states[i].nextKey)
    requires forall a :: i < a < m ==> !(es[a].Call? && Deletes(es[a].action, states[i].nextKey))
    ensures var x, at := states[i].nextKey, if seen <= states[i].jiffies then seen else states[i].jiffies;
            var due := if at + d < states[i].now then states[i].now else at + d;
            && (forall p :: 0 <= p < |states[m].log| && states[m].log[p].1 == x ==> states[m].log[p].0 >= due)
            && (states[m].now > due ==> (due, x) in states[m].log)
            && (states[m].now <= due ==> x in states[m].timers && states[m].timers[x].expires == at + d && !states[m].timers[x].removed)
  {
    var x, at := states[i].nextKey, if seen <= states[i].jiffies then seen else states[i].jiffies;
    var due := if at + d < states[i].now then states[i].now else at + d;
    RunKeeps(es, states, env, i);
    assert Step(states[i], es[i], states[i + 1], env);
    assert Pending(states[i + 1], x, at + d, due);
    StaysDue(es, states, env, i + 1, m, x, at + d, due);
    RunKeeps(es, states, env, m);
  }

  lemma {:induction false} StaysDue(es: seq<Event>, states: seq<State>, env: Env, i: nat, m: nat, x: Key, expires: nat, due: nat)
    requires IsRun(es, states, env) && i <= m < |states| && Pending(states[i], x, expires, due) && LeavesArmed(env, x)
    requires forall a :: i <= a < m ==> !(es[a].Call? && Deletes(es[a].action, x))
    ensures Pending(states[m], x, expires, due) || RanFirst(states[m], x, due)
    decreases m
  {
    hide Pending, RanFirst, LeavesArmed, Deletes;
    if i < m {
      StaysDue(es, states, env, i, m - 1, x, expires, due);
      RunKeeps(es, states, env, m - 1);
      StepRuns(states[m - 1], es[m - 1], states[m], env, x, expires, due);
    }
  }

  /** The call gives timer `k` the period `msec`. */
  ghost predicate Asks(s: State, e: Event, k: Key, msec: int)
  {
    || (e.Call? && e.action.Add? && e.action.msec == msec && k == s.nextKey)
    || (e == Call(SetMsec(k, msec)) && k in s.timers)
  }

  lemma {:induction false} KeepsMsec(es: seq<Event>, states: seq<State>, env: Env, i: nat, j: nat, k: Key)
    requires IsRun(es, states, env) && i <= j < |states| && k < states[i].nextKey && k in states[i].timers && LeavesMsec(env, k)
    requires forall a :: i <= a < j ==> !(es[a].Call? && SetsMsec(es[a].action, k))
    ensures k < states[j].nextKey
    ensures k in states[j].timers ==> states[j].timers[k].msec == states[i].timers[k].msec
    decreases j
  {
    hide LeavesMsec, SetsMsec;
    if i < j {
      KeepsMsec(es, states, env, i, j - 1, k);
      RunKeeps(es, states, env, j - 1);
      var s, e := states[j - 1], es[j - 1];
      assert Step(s, e, states[j], env);
      match e
      case Advance =>
      case Call(a) => ActGrows(s, a, k);
      case Run(order) =>
        TakeAllTakes(s, order, env);
        if k in s.timers {
          TakeAllRearms(s, order, env, k);
        }
    }
  }

  /** From the adding of a timer, or a change of its period, on, and until the next change: each
      time it runs and is armed again it runs next that period later. */
  lemma {:induction false} AskedPeriod(es: seq<Event>, states: seq<State>, env: Env, i: nat, a: nat, b: nat, k: Key, msec: int)
    requires IsRun(es, states, env) && i < a < b < |es| && Asks(states[i], es[i], k, msec) && FitsInt(msec)
    requires LeavesMsec(env, k) && forall c :: i < c < a ==> !(es[c].Call? && SetsMsec(es[c].action, k))
    requires es[a].Run? && es[b].Run? && k in es[a].order && k in es[b].order && k in states[a + 1].timers
    requires forall c :: a < c < b ==> !(es[c].Run? && k in es[c].order)
    ensures IsPeriod(msec, states[b].now - states[a].now)
  {
    hide LeavesMsec, IsPeriod;
    RunKeeps(es, states, env, i);
    assert Step(states[i], es[i], states[i + 1], env);
    KeepsMsec(es, states, env, i + 1, a, k);
    assert Step(states[a], es[a], states[a + 1], env);
    NoDrift(es, states, env, a, b, k);
  }

  // ---- What callbacks ask for ----

  /** A timer a callback adds is there after it, armed its period after the clock it read. */
  lemma {:induction false} CallbackAdds(s: State, k: Key, env: Env, q: nat, msec: int, seen: nat)
    requires Fresh(s) && k in s.timers && !s.timers[k].removed && q < |env(k, s.now).actions|
    requires env(k, s.now).actions[q] == Add(msec, seen) && FitsInt(msec)
    ensures exists x :: x in Take(s, k, env).timers && s.nextKey <= x &&
              IsPeriod(msec, Take(s, k, env).timers[x].expires - if seen <= s.jiffies then seen else s.jiffies)
  {
    hide IsPeriod;
    var s0 := s.(log := s.log + [(s.now, k)]);
    var x := ActAllAdds(s0, env(k, s.now).actions, q, msec, seen);
    assert x in Take(s, k, env).timers;
  }

  lemma {:induction false} ActAllAdds(s: State, actions: seq<Action>, q: nat, msec: int, seen: nat) returns (x: Key)
    requires Fresh(s) && q < |actions| && actions[q] == Add(msec, seen) && FitsInt(msec)
    ensures s.nextKey <= x && x in ActAll(s, actions).timers
    ensures IsPeriod(msec, ActAll(s, actions).timers[x].expires - if seen <= s.jiffies then seen else s.jiffies)
    decreases |actions|
  {
    hide IsPeriod;
    var s1 := Act(s, actions[0]);
    ActGrows(s, actions[0], 0);
    if q == 0 {
      x := s.nextKey;
      ActAllGrows(s1, actions[1..], x);
      assert IsPeriod(msec, Period(msec)) by { PeriodIs(msec); }
    } else {
      x := ActAllAdds(s1, actions[1..], q - 1, msec, seen);
    }
  }

  lemma PeriodIs(msec: int)
    requires FitsInt(msec)
    ensures IsPeriod(msec, Period(msec))
  {
  }

  /** A period set by the timer's own callback is the one it is armed with again. */
  lemma {:induction false} CallbackSetsMsec(s: State, k: Key, env: Env, q: nat, msec: int)
    requires Fresh(s) && k in s.timers && !s.timers[k].removed && q < |env(k, s.now).actions| && env(k, s.now).repeats
    requires env(k, s.now).actions[q] == SetMsec(k, msec) && FitsInt(msec)
    requires forall r :: q < r < |env(k, s.now).actions| ==> !SetsMsec(env(k, s.now).actions[r], k)
    ensures k in Take(s, k, env).timers && IsPeriod(msec, Take(s, k, env).timers[k].expires - s.jiffies)
  {
    hide IsPeriod;
    var s0 := s.(log := s.log + [(s.now, k)]);
    ActAllGrows(s0, env(k, s.now).actions, k);
    ActAllSets(s0, env(k, s.now).actions, q, k, msec);
    PeriodIs(msec);
  }

  lemma {:induction false} ActAllSets(s: State, actions: seq<Action>, q: nat, k: Key, msec: int)
    requires Fresh(s) && k in s.timers && q < |actions| && actions[q] == SetMsec(k, msec)
    requires forall r :: q < r < |actions| ==> !SetsMsec(actions[r], k)
    ensures k in ActAll(s, actions).timers && ActAll(s, actions).timers[k].msec == msec
    decreases |actions|
  {
    var s1 := Act(s, actions[0]);
    ActGrows(s, actions[0], k);
    ActAllGrows(s, actions, k);
    if q == 0 {
      ActAllGrows(s1, actions[1..], k);
    } else {
      ActAllSets(s1, actions[1..], q - 1, k, msec);
    }
  }
}

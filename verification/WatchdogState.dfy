/** service/watchdog/watchdog.c: the registry of watched services, as a function of the events
    and of the clock. */
module WatchdogState {
  import opened Arithmetic
  import opened Options
  import opened Sequences

  /** Seconds of the monotonic clock. */
  type Seconds = nat

  /** `last` and `grace` are history: when the countdown was last set, and to what. */
  datatype Sub = Sub(subId: nat, timeout: nat, expireCount: int, ats: Seconds, last: Seconds, grace: int)

  datatype Service = Service(pid: int, name: string, timeout: nat, active: bool, expireCount: int, ats: Seconds,
                             subs: seq<Sub>, last: Seconds, grace: int)

  /** A 32-bit value stored in an `int`. */
  function AsInt(x: int): (r: int)
    ensures -0x8000_0000 <= r < 0x8000_0000 && (r - x) % 0x1_0000_0000 == 0
    ensures -0x8000_0000 <= x < 0x8000_0000 ==> r == x
  {
    var u := x % UINT_LIMIT;
    if u < INT_LIMIT then u else u - UINT_LIMIT
  }

  /** The countdown START, STOP and ALIVE set: `timeout + 1`, where that fits. */
  function Grace(timeout: nat): int
  {
    AsInt(timeout + 1)
  }

  /** The program's name without its directories. */
  function Basename(name: string): string
  {
    if '/' !in name then name else Basename(name[1..])
  }

  /** It is what stands after the last slash. */
  lemma {:induction false} BasenameIs(name: string)
    ensures '/' !in name ==> Basename(name) == name
    ensures '/' in name ==> '/' !in Basename(name) && exists dir :: name == dir + "/" + Basename(name)
  {
    if '/' in name {
      BasenameIs(name[1..]);
      if '/' in name[1..] {
        var dir :| name[1..] == dir + "/" + Basename(name[1..]);
        assert name == (name[..1] + dir) + "/" + Basename(name);
      } else {
        assert name == [] + "/" + Basename(name);
      }
    }
  }

  predicate Named(s: Service, name: string)
  {
    Basename(s.name) == Basename(name)
  }

  // ---- Looking up ----

  /** The first element `p` holds of, as `list_for_each` with a return finds it. */
  ghost predicate IsFirst<T>(s: seq<T>, p: T -> bool, i: nat)
  {
    i < |s| && p(s[i]) && forall j :: 0 <= j < i ==> !p(s[j])
  }

  function First<T>(s: seq<T>, p: T -> bool): (r: Option<nat>)
    ensures r.Some? ==> IsFirst(s, p, r.value)
    ensures r.None? ==> forall i :: 0 <= i < |s| ==> !p(s[i])
  {
    FirstFrom(s, p, 0)
  }

  function ByPid(ss: seq<Service>, pid: int): Option<nat>
  {
    First(ss, (s: Service) => s.pid == pid)
  }

  function ByName(ss: seq<Service>, name: string): Option<nat>
  {
    First(ss, (s: Service) => Named(s, name))
  }

  function BySubId(subs: seq<Sub>, subId: nat): Option<nat>
  {
    First(subs, (s: Sub) => s.subId == subId)
  }

  // ---- Events ----

  datatype Event =
    | Register(pid: int, name: string, timeout: nat, oldAlive: bool, newAlive: bool)
    | Unregister(pid: int, name: string)
    | StartStop(pid: int, name: string, active: bool)
    | Alive(pid: int, name: string)
    | SubRegister(name: string, subId: nat, timeout: nat, alive: bool)
    | SubUnregister(pid: int, subId: nat)
    | SubAlive(pid: int, name: string, subId: nat)
    | Update(live: (int, string) -> bool)

  /** A service as `calloc` and the registration leave it: not active, nothing counted down. */
  function NewService(pid: int, name: string, timeout: nat): Service
  {
    Service(pid, name, timeout, false, 0, 0, [], 0, 0)
  }

  function Reset(s: Service, active: bool, now: Seconds): Service
  {
    s.(active := active, expireCount := Grace(s.timeout), ats := now, last := now, grace := Grace(s.timeout))
  }

  function ResetSub(s: Sub, now: Seconds): Sub
  {
    var g := AsInt(AsInt(s.timeout) + 1);
    s.(expireCount := g, ats := now, last := now, grace := g)
  }

  function CountedSub(s: Sub, now: Seconds): Sub
  {
    s.(expireCount := s.expireCount - (now - s.ats), ats := now)
  }

  function Counted(s: Service, now: Seconds): Service
  {
    if s.active then s.(expireCount := s.expireCount - (now - s.ats), ats := now) else s
  }

  /** The sub-services are counted up to the first that has expired. */
  function CountedSubs(subs: seq<Sub>, now: Seconds): (seq<Sub>, bool)
  {
    if subs == [] then (subs, false)
    else
      var c := CountedSub(subs[0], now);
      if c.expireCount < 0 then ([c] + subs[1..], true)
      else
        var r := CountedSubs(subs[1..], now);
        ([c] + r.0, r.1)
  }

  /** One service's turn in an update: what it becomes, and whether the watchdog acts on it. */
  function Visited(s: Service, now: Seconds, alive: (int, string) -> bool): (Service, bool)
  {
    if !alive(s.pid, s.name) then (s, true)
    else
      var c := Counted(s, now);
      if c.expireCount < 0 then (c, true)
      else
        var r := CountedSubs(c.subs, now);
        (c.(subs := r.0), r.1)
  }

  /** The services an update keeps, in order, as counted. */
  function Kept(ss: seq<Service>, now: Seconds, alive: (int, string) -> bool): seq<Service>
  {
    if ss == [] then []
    else
      var v := Visited(ss[0], now, alive);
      (if v.1 then [] else [v.0]) + Kept(ss[1..], now, alive)
  }

  /** The services an update acts on, in order. */
  function Acted(ss: seq<Service>, now: Seconds, alive: (int, string) -> bool): seq<Service>
  {
    if ss == [] then []
    else
      var v := Visited(ss[0], now, alive);
      (if v.1 then [v.0] else []) + Acted(ss[1..], now, alive)
  }

  function Registered(ss: seq<Service>, pid: int, name: string, timeout: nat, oldAlive: bool, newAlive: bool): seq<Service>
  {
    var r := ByName(ss, name);
    var ss1 := if r.Some? && !oldAlive then Without(ss, r.value) else ss;
    if (r.Some? && oldAlive) || !newAlive then ss1 else ss1 + [NewService(pid, name, timeout)]
  }

  function Apply(ss: seq<Service>, e: Event, now: Seconds): seq<Service>
  {
    match e
    case Register(pid, name, timeout, oldAlive, newAlive) => Registered(ss, pid, name, timeout, oldAlive, newAlive)
    case Unregister(pid, name) =>
      var r := First(ss, (s: Service) => s.pid == pid && s.name == name);
      if r.Some? then Without(ss, r.value) else ss
    case StartStop(pid, name, active) =>
      var r := ByPid(ss, pid);
      if r.Some? && ss[r.value].name == name then ss[r.value := Reset(ss[r.value], active, now)] else ss
    case Alive(pid, name) =>
      var r := ByPid(ss, pid);
      if r.Some? && ss[r.value].name == name then ss[r.value := Reset(ss[r.value], true, now)] else ss
    case SubRegister(name, subId, timeout, alive) =>
      var r := ByName(ss, name);
      if r.None? then ss
      else if alive then
        var s := ss[r.value];
        var g := AsInt(timeout);
        ss[r.value := s.(subs := s.subs + [Sub(subId, timeout, g, now, now, g)])]
      else Without(ss, r.value)
    case SubUnregister(pid, subId) =>
      var r := ByPid(ss, pid);
      if r.None? then ss
      else
        var s := ss[r.value];
        var q := BySubId(s.subs, subId);
        if q.Some? then ss[r.value := s.(subs := Without(s.subs, q.value))] else ss
    case SubAlive(pid, name, subId) =>
      var r := ByPid(ss, pid);
      if r.None? || ss[r.value].name != name then ss
      else
        var s := ss[r.value];
        var q := BySubId(s.subs, subId);
        if q.Some? then ss[r.value := s.(subs := s.subs[q.value := ResetSub(s.subs[q.value], now)])] else ss
    case Update(alive) => Kept(ss, now, alive)
  }

  /** A run: each event with the second it is handled in, the clock never going back. */
  ghost predicate IsRun(es: seq<Event>, at: seq<Seconds>, states: seq<seq<Service>>)
  {
    && |at| == |es| && |states| == |es| + 1 && states[0] == []
    && (forall i, j :: 0 <= i < j < |at| ==> at[i] <= at[j])
    && (forall i :: 0 <= i < |es| ==> states[i + 1] == Apply(states[i], es[i], at[i]))
  }

  // ---- No two services of one name ----

  ghost predicate DistinctNames(ss: seq<Service>)
  {
    forall i, j :: 0 <= i < j < |ss| ==> !Named(ss[i], ss[j].name)
  }

  ghost predicate HasName(ss: seq<Service>, name: string)
  {
    exists i :: 0 <= i < |ss| && ss[i].name == name
  }

  lemma {:induction false} KeptNames(ss: seq<Service>, now: Seconds, alive: (int, string) -> bool)
    ensures forall j :: 0 <= j < |Kept(ss, now, alive)| ==> HasName(ss, Kept(ss, now, alive)[j].name)
  {
    if ss != [] {
      var all, k, v := Kept(ss, now, alive), Kept(ss[1..], now, alive), Visited(ss[0], now, alive);
      KeptNames(ss[1..], now, alive);
      forall j | 0 <= j < |all|
        ensures HasName(ss, all[j].name)
      {
        if !v.1 && j == 0 {
          assert ss[0].name == all[0].name;
        } else {
          var l := if v.1 then j else j - 1;
          assert all[j] == k[l] && HasName(ss[1..], k[l].name);
          var i :| 0 <= i < |ss[1..]| && ss[1..][i].name == k[l].name;
          assert ss[i + 1].name == all[j].name;
        }
      }
    }
  }

  lemma {:induction false} KeptDistinct(ss: seq<Service>, now: Seconds, alive: (int, string) -> bool)
    requires DistinctNames(ss)
    ensures DistinctNames(Kept(ss, now, alive))
  {
    if ss != [] {
      var k, v := Kept(ss[1..], now, alive), Visited(ss[0], now, alive);
      KeptDistinct(ss[1..], now, alive);
      KeptNames(ss[1..], now, alive);
      if !v.1 {
        forall j | 0 <= j < |k|
          ensures !Named(v.0, k[j].name)
        {
          assert HasName(ss[1..], k[j].name);
          var i :| 0 <= i < |ss[1..]| && ss[1..][i].name == k[j].name;
          assert !Named(ss[0], ss[i + 1].name);
        }
        assert Kept(ss, now, alive) == [v.0] + k;
      }
    }
  }

  lemma {:induction false} WithoutDistinct(ss: seq<Service>, i: nat)
    requires DistinctNames(ss) && i < |ss|
    ensures DistinctNames(Without(ss, i))
  {
    hide Named;
    var w := Without(ss, i);
    forall j, k | 0 <= j < k < |w|
      ensures !Named(w[j], w[k].name)
    {
      var j', k' := if j < i then j else j + 1, if k < i then k else k + 1;
      assert w[j] == ss[j'] && w[k] == ss[k'];
    }
  }

  ghost predicate SameNames(ss: seq<Service>, ss': seq<Service>)
  {
    |ss| == |ss'| && forall i :: 0 <= i < |ss| ==> ss'[i].name == ss[i].name
  }

  lemma {:induction false} SameNamesDistinct(ss: seq<Service>, ss': seq<Service>)
    requires DistinctNames(ss) && SameNames(ss, ss')
    ensures DistinctNames(ss')
  {
    hide Basename;
    forall j, k | 0 <= j < k < |ss|
      ensures !Named(ss'[j], ss'[k].name)
    {
      assert !Named(ss[j], ss[k].name);
    }
  }

  lemma {:induction false} RegisteredDistinct(ss: seq<Service>, pid: int, name: string, timeout: nat,
                                              oldAlive: bool, newAlive: bool)
    requires DistinctNames(ss)
    ensures DistinctNames(Registered(ss, pid, name, timeout, oldAlive, newAlive))
  {
    hide Basename;
    var r := ByName(ss, name);
    if r.Some? {
      WithoutDistinct(ss, r.value);
      var w := Without(ss, r.value);
      forall j | 0 <= j < |w|
        ensures !Named(w[j], name)
      {
        var j' := if j < r.value then j else j + 1;
        assert w[j] == ss[j'];
        assert j' > r.value ==> !Named(ss[r.value], ss[j'].name);
      }
    }
  }

  lemma {:induction false} ApplyKeepsDistinct(ss: seq<Service>, e: Event, now: Seconds)
    requires DistinctNames(ss)
    ensures DistinctNames(Apply(ss, e, now))
  {
    hide Named, Kept, AsInt, Grace, DistinctNames, Registered, Without;
    forall i | 0 <= i < |ss|
      ensures DistinctNames(Without(ss, i))
    {
      WithoutDistinct(ss, i);
    }
    match e
    case Register(pid, name, timeout, oldAlive, newAlive) =>
      RegisteredDistinct(ss, pid, name, timeout, oldAlive, newAlive);
    case Update(alive) => KeptDistinct(ss, now, alive);
    case _ =>
      if SameNames(ss, Apply(ss, e, now)) {
        SameNamesDistinct(ss, Apply(ss, e, now));
      }
  }

  /** Over all runs no two registered services share a base name. */
  lemma {:induction false} NamesStayDistinct(es: seq<Event>, at: seq<Seconds>, states: seq<seq<Service>>, i: nat)
    requires IsRun(es, at, states) && i < |states|
    ensures DistinctNames(states[i])
  {
    if i > 0 {
      NamesStayDistinct(es, at, states, i - 1);
      ApplyKeepsDistinct(states[i - 1], es[i - 1], at[i - 1]);
    }
  }

  // ---- Time ----

  /** The countdown says how much of the grace is left, whatever updates have run. */
  ghost predicate SubOnTime(s: Sub, now: Seconds)
  {
    s.last <= s.ats <= now && s.expireCount == s.grace - (s.ats - s.last)
  }

  ghost predicate OnTime(s: Service, now: Seconds)
  {
    && (if s.active then
          s.last <= s.ats <= now && s.expireCount == s.grace - (s.ats - s.last) && s.grace == Grace(s.timeout)
        else s.expireCount == 0 || s.expireCount == Grace(s.timeout))
    && (forall i :: 0 <= i < |s.subs| ==> SubOnTime(s.subs[i], now))
  }

  ghost predicate AllOnTime(ss: seq<Service>, now: Seconds)
  {
    forall i :: 0 <= i < |ss| ==> OnTime(ss[i], now)
  }

  /** When an update acts: the process has gone, the service has been silent for more than its
      grace, or one of its sub-services has. */
  ghost predicate Due(s: Service, now: Seconds, alive: (int, string) -> bool)
  {
    || !alive(s.pid, s.name)
    || (if s.active then now - s.last > s.grace else s.expireCount < 0)
    || (exists i :: 0 <= i < |s.subs| && now - s.subs[i].last > s.subs[i].grace)
  }

  lemma {:induction false} CountedSubsExact(subs: seq<Sub>, now: Seconds, since: Seconds)
    requires since <= now && forall i :: 0 <= i < |subs| ==> SubOnTime(subs[i], since)
    ensures CountedSubs(subs, now).1 <==> exists i :: 0 <= i < |subs| && now - subs[i].last > subs[i].grace
    ensures !CountedSubs(subs, now).1 ==>
              && |CountedSubs(subs, now).0| == |subs|
              && forall i :: 0 <= i < |subs| ==>
                   CountedSubs(subs, now).0[i] == CountedSub(subs[i], now) && SubOnTime(CountedSub(subs[i], now), now)
  {
    if subs != [] {
      var c, r := CountedSub(subs[0], now), CountedSubs(subs[1..], now);
      assert c.expireCount < 0 <==> now - subs[0].last > subs[0].grace;
      CountedSubsExact(subs[1..], now, since);
      if exists i :: 0 <= i < |subs| && now - subs[i].last > subs[i].grace {
        var i :| 0 <= i < |subs| && now - subs[i].last > subs[i].grace;
        assert i > 0 ==> subs[1..][i - 1] == subs[i];
      }
      if r.1 {
        var i :| 0 <= i < |subs[1..]| && now - subs[1..][i].last > subs[1..][i].grace;
        assert subs[i + 1] == subs[1..][i];
      }
      forall i | 0 <= i < |subs| && !CountedSubs(subs, now).1
        ensures CountedSubs(subs, now).0[i] == CountedSub(subs[i], now) && SubOnTime(CountedSub(subs[i], now), now)
      {
        if i > 0 {
          assert subs[1..][i - 1] == subs[i];
        }
      }
    }
  }

  /** An update acts on a service exactly when it is due, however many updates came before. */
  lemma {:induction false} VisitExact(s: Service, now: Seconds, since: Seconds, alive: (int, string) -> bool)
    requires since <= now && OnTime(s, since)
    ensures Visited(s, now, alive).1 <==> Due(s, now, alive)
    ensures !Visited(s, now, alive).1 ==> OnTime(Visited(s, now, alive).0, now)
    ensures var v := Visited(s, now, alive).0;
            v.name == s.name && v.pid == s.pid && v.active == s.active && v.last == s.last && v.timeout == s.timeout
  {
    CountedSubsExact(s.subs, now, since);
  }

  /** An update visits each service once, in order: it keeps, counted and on time, those not
      due, and acts on the rest. */
  lemma {:induction false} UpdateExact(ss: seq<Service>, now: Seconds, since: Seconds, alive: (int, string) -> bool)
    requires since <= now && AllOnTime(ss, since)
    ensures AllOnTime(Kept(ss, now, alive), now)
    ensures |Kept(ss, now, alive)| + |Acted(ss, now, alive)| == |ss|
    ensures forall i :: 0 <= i < |ss| ==>
              if Due(ss[i], now, alive) then Visited(ss[i], now, alive).0 in Acted(ss, now, alive)
              else Visited(ss[i], now, alive).0 in Kept(ss, now, alive)
  {
    if ss != [] {
      VisitExact(ss[0], now, since, alive);
      UpdateExact(ss[1..], now, since, alive);
      forall i | 0 <= i < |ss|
        ensures if Due(ss[i], now, alive) then Visited(ss[i], now, alive).0 in Acted(ss, now, alive)
                else Visited(ss[i], now, alive).0 in Kept(ss, now, alive)
      {
        if i > 0 {
          assert ss[1..][i - 1] == ss[i];
        }
      }
    }
  }

  lemma {:induction false} LaterOnTime(ss: seq<Service>, now: Seconds, later: Seconds)
    requires AllOnTime(ss, now) && now <= later
    ensures AllOnTime(ss, later)
  {
  }

  lemma {:induction false} WithoutOnTime(ss: seq<Service>, r: nat, now: Seconds)
    requires AllOnTime(ss, now) && r < |ss|
    ensures AllOnTime(Without(ss, r), now)
  {
    hide OnTime;
    var w := Without(ss, r);
    forall i | 0 <= i < |w|
      ensures OnTime(w[i], now)
    {
      assert w[i] == ss[if i < r then i else i + 1];
    }
  }

  lemma {:induction false} RegisteredOnTime(ss: seq<Service>, pid: int, name: string, timeout: nat, oldAlive: bool,
                                            newAlive: bool, now: Seconds)
    requires AllOnTime(ss, now)
    ensures AllOnTime(Registered(ss, pid, name, timeout, oldAlive, newAlive), now)
  {
    hide Without;
    var r := ByName(ss, name);
    if r.Some? {
      WithoutOnTime(ss, r.value, now);
    }
  }

  lemma {:induction false} ApplyKeepsTime(ss: seq<Service>, e: Event, since: Seconds, now: Seconds)
    requires since <= now && AllOnTime(ss, since)
    ensures AllOnTime(Apply(ss, e, now), now)
  {
    LaterOnTime(ss, since, now);
    hide Registered, Kept, Basename, AsInt;
    match e
    case Register(pid, name, timeout, oldAlive, newAlive) =>
      RegisteredOnTime(ss, pid, name, timeout, oldAlive, newAlive, now);
    case Update(alive) => UpdateExact(ss, now, since, alive);
    case _ =>
  }

  lemma {:induction false} RunOnTime(es: seq<Event>, at: seq<Seconds>, states: seq<seq<Service>>, i: nat)
    requires IsRun(es, at, states) && i < |states|
    ensures AllOnTime(states[i], if i == 0 then 0 else at[i - 1])
  {
    if i > 0 {
      hide Apply, OnTime, AllOnTime;
      RunOnTime(es, at, states, i - 1);
      ApplyKeepsTime(states[i - 1], es[i - 1], if i == 1 then 0 else at[i - 2], at[i - 1]);
    }
  }

  /** Whether the sum of a timeout and one fits an `int` decides it: the update that follows a START or ALIVE acts at the right second,
      whenever it comes, iff it does. */
  lemma {:induction false} TimelyIff(s: Service, last: Seconds, alive: (int, string) -> bool)
    requires s.timeout < UINT_LIMIT && alive(s.pid, s.name) && s.subs == []
    ensures (forall now :: now >= last ==> (ActsAt(s, last, now, alive) <==> now - last > s.timeout + 1))
            <==> s.timeout + 1 < INT_LIMIT
  {
    if s.timeout + 1 >= INT_LIMIT {
      assert ActsAt(s, last, last + 1, alive);
    }
  }

  /** An update at `now` acts on a service last heard from at `last`. */
  predicate ActsAt(s: Service, last: Seconds, now: Seconds, alive: (int, string) -> bool)
    requires now >= last
  {
    Visited(Reset(s, true, last), now, alive).1
  }

  /** A timeout of -1, passed on as `uint32_t`, is acted on after one second of silence; one of
      2^31 - 1 at once. */
  lemma TimeoutTooLong(pid: int, name: string, last: Seconds)
    ensures ActsAt(NewService(pid, name, UINT_LIMIT - 1), last, last + 1, (p, n) => true)
    ensures ActsAt(NewService(pid, name, INT_LIMIT - 1), last, last, (p, n) => true)
  {
  }

  // ---- Acting in time ----

  /** The event resets, replaces or removes a service with this pid and name. */
  predicate Touches(e: Event, pid: int, name: string)
  {
    match e
    case Register(_, other, _, oldAlive, _) => Basename(other) == Basename(name) && !oldAlive
    case Unregister(p, other) => p == pid && other == name
    case StartStop(p, other, _) => p == pid && other == name
    case Alive(p, other) => p == pid && other == name
    case SubRegister(other, _, _, alive) => Basename(other) == Basename(name) && !alive
    case _ => false
  }

  /** `s` and `t` are one service, with the same last START or ALIVE; sub-services may differ. */
  predicate SameService(s: Service, t: Service)
  {
    s.pid == t.pid && s.name == t.name && s.timeout == t.timeout && s.active == t.active && s.last == t.last
  }

  ghost predicate Has(ss: seq<Service>, s: Service)
  {
    exists l :: 0 <= l < |ss| && SameService(ss[l], s)
  }

  ghost predicate NoneNamed(ss: seq<Service>, name: string)
  {
    forall l :: 0 <= l < |ss| ==> !Named(ss[l], name)
  }

  lemma {:induction false} WithoutHas(ss: seq<Service>, r: nat, l: nat, s: Service)
    requires r < |ss| && l < |ss| && r != l && SameService(ss[l], s)
    ensures Has(Without(ss, r), s)
  {
    assert Without(ss, r)[if l < r then l else l - 1] == ss[l];
  }

  lemma {:induction false} PutHas(ss: seq<Service>, r: nat, x: Service, l: nat, s: Service)
    requires r < |ss| && l < |ss| && SameService(ss[l], s) && (r == l ==> SameService(x, s))
    ensures Has(ss[r := x], s)
  {
    assert SameService(ss[r := x][l], s);
  }

  lemma {:induction false} RegisteredHas(ss: seq<Service>, pid: int, name: string, timeout: nat, oldAlive: bool,
                                         newAlive: bool, l: nat, s: Service)
    requires l < |ss| && SameService(ss[l], s) && !Touches(Register(pid, name, timeout, oldAlive, newAlive), s.pid, s.name)
    ensures Has(Registered(ss, pid, name, timeout, oldAlive, newAlive), s)
  {
    hide Basename;
    var r := ByName(ss, name);
    if r.Some? && !oldAlive {
      WithoutHas(ss, r.value, l, s);
    }
    var ss1 := if r.Some? && !oldAlive then Without(ss, r.value) else ss;
    assert Has(ss1, s) by { assert r.None? || oldAlive ==> SameService(ss1[l], s); }
    var k :| 0 <= k < |ss1| && SameService(ss1[k], s);
    assert SameService((ss1 + [NewService(pid, name, timeout)])[k], s);
  }

  /** Whatever else happens, a service nobody touches stays. */
  lemma {:induction false} UntouchedStays(ss: seq<Service>, e: Event, now: Seconds, l: nat, s: Service)
    requires l < |ss| && SameService(ss[l], s) && !e.Update? && !Touches(e, s.pid, s.name)
    ensures Has(Apply(ss, e, now), s)
  {
    hide Basename, AsInt, Without, Has, Registered;
    assert Has(ss, s) by { PutHas(ss, l, ss[l], l, s); assert ss[l := ss[l]] == ss; }
    match e
    case Register(pid, name, timeout, oldAlive, newAlive) =>
      RegisteredHas(ss, pid, name, timeout, oldAlive, newAlive, l, s);
    case Unregister(pid, name) =>
      var r := First(ss, (x: Service) => x.pid == pid && x.name == name);
      if r.Some? {
        WithoutHas(ss, r.value, l, s);
      }
    case StartStop(pid, name, active) =>
      var r := ByPid(ss, pid);
      if r.Some? && ss[r.value].name == name {
        PutHas(ss, r.value, Reset(ss[r.value], active, now), l, s);
      }
    case Alive(pid, name) =>
      var r := ByPid(ss, pid);
      if r.Some? && ss[r.value].name == name {
        PutHas(ss, r.value, Reset(ss[r.value], true, now), l, s);
      }
    case SubRegister(name, subId, timeout, alive) =>
      var r := ByName(ss, name);
      if r.Some? && alive {
        PutHas(ss, r.value, Apply(ss, e, now)[r.value], l, s);
      } else if r.Some? {
        WithoutHas(ss, r.value, l, s);
      }
    case SubUnregister(pid, subId) =>
      var r := ByPid(ss, pid);
      if r.Some? {
        PutHas(ss, r.value, Apply(ss, e, now)[r.value], l, s);
      }
    case SubAlive(pid, name, subId) =>
      var r := ByPid(ss, pid);
      if r.Some? {
        PutHas(ss, r.value, Apply(ss, e, now)[r.value], l, s);
      }
  }

  /** What an update keeps was there before and was not acted on. */
  ghost predicate KeptFrom(ss: seq<Service>, now: Seconds, alive: (int, string) -> bool, s: Service)
  {
    exists i :: 0 <= i < |ss| && !Visited(ss[i], now, alive).1 && s == Visited(ss[i], now, alive).0
  }

  lemma {:induction false} KeptAreFrom(ss: seq<Service>, now: Seconds, alive: (int, string) -> bool)
    ensures forall j :: 0 <= j < |Kept(ss, now, alive)| ==> KeptFrom(ss, now, alive, Kept(ss, now, alive)[j])
  {
    hide Visited;
    if ss != [] {
      var all, k, v := Kept(ss, now, alive), Kept(ss[1..], now, alive), Visited(ss[0], now, alive);
      KeptAreFrom(ss[1..], now, alive);
      forall j | 0 <= j < |all|
        ensures KeptFrom(ss, now, alive, all[j])
      {
        if v.1 || j > 0 {
          var l := if v.1 then j else j - 1;
          assert all[j] == k[l] && KeptFrom(ss[1..], now, alive, k[l]);
          var i :| 0 <= i < |ss[1..]| && !Visited(ss[1..][i], now, alive).1 && k[l] == Visited(ss[1..][i], now, alive).0;
          assert ss[i + 1] == ss[1..][i];
        }
      }
    }
  }

  /** An update either acts on the service, and then none of its name is left, or keeps it. */
  lemma {:induction false} UpdateActsOrKeeps(ss: seq<Service>, now: Seconds, since: Seconds, alive: (int, string) -> bool,
                                             l: nat, s: Service)
    requires since <= now && AllOnTime(ss, since) && DistinctNames(ss) && l < |ss| && SameService(ss[l], s)
    ensures if Visited(ss[l], now, alive).1 then NoneNamed(Kept(ss, now, alive), s.name) else Has(Kept(ss, now, alive), s)
  {
    hide Visited, Kept, Basename, OnTime, Due;
    var k := Kept(ss, now, alive);
    assert OnTime(ss[l], since);
    VisitExact(ss[l], now, since, alive);
    if Visited(ss[l], now, alive).1 {
      KeptAreFrom(ss, now, alive);
      forall j | 0 <= j < |k|
        ensures !Named(k[j], s.name)
      {
        assert KeptFrom(ss, now, alive, k[j]);
        var i :| 0 <= i < |ss| && !Visited(ss[i], now, alive).1 && k[j] == Visited(ss[i], now, alive).0;
        assert OnTime(ss[i], since);
        VisitExact(ss[i], now, since, alive);
        assert i < l ==> !Named(ss[i], ss[l].name);
        assert l < i ==> !Named(ss[l], ss[i].name);
      }
    } else {
      UpdateExact(ss, now, since, alive);
      assert Visited(ss[l], now, alive).0 in k;
    }
  }

  ghost predicate HasActed(acted: seq<Service>, pid: int, name: string)
  {
    exists i :: 0 <= i < |acted| && acted[i].pid == pid && acted[i].name == name
  }

  /** The update `es[j]` acts on the service, and with it the name is gone. */
  ghost predicate ActsOn(es: seq<Event>, at: seq<Seconds>, states: seq<seq<Service>>, j: nat, pid: int, name: string)
    requires j < |es| == |at| && |states| == |es| + 1
  {
    && es[j].Update? && NoneNamed(states[j + 1], name)
    && HasActed(Acted(states[j], at[j], es[j].live), pid, name)
  }

  /** No stretch of `gap` seconds of the run from `since` on lacks an update. */
  ghost predicate UpdatesWithin(es: seq<Event>, at: seq<Seconds>, since: Seconds, gap: nat)
    requires |at| == |es| > 0
  {
    forall t :: since <= t && t + gap <= at[|at| - 1] ==> UpdateAfter(es, at, t, gap)
  }

  ghost predicate UpdateAfter(es: seq<Event>, at: seq<Seconds>, t: Seconds, gap: nat)
    requires |at| == |es|
  {
    exists j :: 0 <= j < |es| && es[j].Update? && t < at[j] <= t + gap
  }

  lemma UpdateIsKept(ss: seq<Service>, e: Event, now: Seconds)
    requires e.Update?
    ensures Apply(ss, e, now) == Kept(ss, now, e.live)
  {
  }

  /** An update acts on a service exactly when it is due, and else keeps it. */
  lemma {:induction false} UpdateDecides(es: seq<Event>, at: seq<Seconds>, states: seq<seq<Service>>, u: nat, l: nat, s: Service)
    requires IsRun(es, at, states) && u < |es| && es[u].Update? && l < |states[u]| && SameService(states[u][l], s)
    ensures ActsOn(es, at, states, u, s.pid, s.name) <==> Due(states[u][l], at[u], es[u].live)
    ensures !ActsOn(es, at, states, u, s.pid, s.name) ==> Has(states[u + 1], s)
    ensures OnTime(states[u][l], at[u])
  {
    hide Apply, Visited, Kept, Acted, Basename, Due, OnTime;
    var ss, now, since, live := states[u], at[u], if u == 0 then 0 else at[u - 1], es[u].live;
    RunOnTime(es, at, states, u);
    NamesStayDistinct(es, at, states, u);
    assert since <= now && OnTime(ss[l], since);
    UpdateActsOrKeeps(ss, now, since, live, l, s);
    UpdateExact(ss, now, since, live);
    VisitExact(ss[l], now, since, live);
    LaterOnTime([ss[l]], since, now);
    assert OnTime([ss[l]][0], now);
    UpdateIsKept(ss, es[u], now);
    if Due(ss[l], now, live) {
      var i :| 0 <= i < |Acted(ss, now, live)| && Acted(ss, now, live)[i] == Visited(ss[l], now, live).0;
      assert HasActed(Acted(ss, now, live), s.pid, s.name);
    } else {
      var k :| 0 <= k < |states[u + 1]| && SameService(states[u + 1][k], s);
      assert Named(states[u + 1][k], s.name);
    }
  }

  /** A service that is neither touched nor acted on stays, with what it was last given. */
  lemma {:induction false} LeftAloneStays(es: seq<Event>, at: seq<Seconds>, states: seq<seq<Service>>, m: nat, u: nat, s: Service)
    requires IsRun(es, at, states) && m <= u < |states| && Has(states[m], s)
    requires forall k :: m <= k < u ==> !Touches(es[k], s.pid, s.name) && !ActsOn(es, at, states, k, s.pid, s.name)
    ensures Has(states[u], s)
    decreases u
  {
    hide Apply, Touches, ActsOn, Basename, Due, OnTime;
    if m < u {
      LeftAloneStays(es, at, states, m, u - 1, s);
      var l :| 0 <= l < |states[u - 1]| && SameService(states[u - 1][l], s);
      if es[u - 1].Update? {
        UpdateDecides(es, at, states, u - 1, l, s);
      } else {
        UntouchedStays(states[u - 1], es[u - 1], at[u - 1], l, s);
      }
    }
  }

  // ---- What START, STOP and ALIVE do ----

  /** The `l`th service is the first with the pid, and has the name. */
  ghost predicate Answers(ss: seq<Service>, l: nat, pid: int, name: string)
  {
    l < |ss| && ss[l].pid == pid && ss[l].name == name && forall j :: 0 <= j < l ==> ss[j].pid != pid
  }

  /** The event is a START, a STOP or an ALIVE of the service. */
  predicate Calls(e: Event, pid: int, name: string)
  {
    (e.StartStop? || e.Alive?) && e.pid == pid && e.name == name
  }

  predicate Starts(e: Event)
  {
    e.Alive? || (e.StartStop? && e.active)
  }

  lemma {:induction false} FirstFromIs<T>(s: seq<T>, p: T -> bool, k: nat, i: nat)
    requires k <= i < |s| && p(s[i]) && forall j :: k <= j < i ==> !p(s[j])
    ensures FirstFrom(s, p, k) == Some(i)
    decreases i - k
  {
    if k < i {
      FirstFromIs(s, p, k + 1, i);
    }
  }

  lemma {:induction false} FirstIs(ss: seq<Service>, l: nat, pid: int, name: string)
    requires Answers(ss, l, pid, name)
    ensures ByPid(ss, pid) == Some(l)
  {
    FirstFromIs(ss, (s: Service) => s.pid == pid, 0, l);
  }

  /** In every run, START, STOP and ALIVE make the service active or not, from that second on,
      with the timeout plus one for a countdown, and change nothing else. */
  lemma {:induction false} CallSets(es: seq<Event>, at: seq<Seconds>, states: seq<seq<Service>>, i: nat, l: nat, pid: int, name: string)
    requires IsRun(es, at, states) && i < |es| && Calls(es[i], pid, name) && Answers(states[i], l, pid, name)
    ensures |states[i + 1]| == |states[i]| && forall j :: 0 <= j < |states[i]| && j != l ==> states[i + 1][j] == states[i][j]
    ensures var s, s' := states[i][l], states[i + 1][l];
            && s'.pid == pid && s'.name == name && s'.timeout == s.timeout && s'.subs == s.subs
            && (s'.active <==> Starts(es[i])) && s'.last == at[i]
            && (s.timeout + 1 < INT_LIMIT ==> s'.grace == s.timeout + 1)
  {
    FirstIs(states[i], l, pid, name);
    assert states[i + 1] == Apply(states[i], es[i], at[i]);
  }

  /** Where the first service with the pid has another name, or there is none, they do nothing. */
  lemma {:induction false} CallIgnored(es: seq<Event>, at: seq<Seconds>, states: seq<seq<Service>>, i: nat, pid: int, name: string)
    requires IsRun(es, at, states) && i < |es| && Calls(es[i], pid, name)
    requires forall l: nat :: !Answers(states[i], l, pid, name)
    ensures states[i + 1] == states[i]
  {
    var r := ByPid(states[i], pid);
    assert r.Some? ==> !Answers(states[i], r.value, pid, name);
    assert states[i + 1] == Apply(states[i], es[i], at[i]);
  }

  /** No sub-service of the named service has been silent for more than its grace. */
  ghost predicate SubsHeard(ss: seq<Service>, name: string, now: Seconds)
  {
    forall l, j :: 0 <= l < |ss| && ss[l].name == name && 0 <= j < |ss[l].subs| ==> now - ss[l].subs[j].last <= ss[l].subs[j].grace
  }

  lemma {:induction false} CalledStays(es: seq<Event>, at: seq<Seconds>, states: seq<seq<Service>>, i: nat, u: nat, l: nat,
                                       pid: int, name: string, s: Service)
    requires IsRun(es, at, states) && i < u < |states| && Calls(es[i], pid, name) && Answers(states[i], l, pid, name)
    requires s == NewService(pid, name, states[i][l].timeout).(active := Starts(es[i]), last := at[i])
    requires forall k :: i < k < u ==> !Touches(es[k], pid, name) && !ActsOn(es, at, states, k, pid, name)
    ensures Has(states[u], s)
  {
    hide Apply, Touches, ActsOn;
    CallSets(es, at, states, i, l, pid, name);
    assert SameService(states[i + 1][l], s);
    LeftAloneStays(es, at, states, i + 1, u, s);
  }

  /** In every run: with event `i` the last START, STOP or ALIVE of a service before update `u`,
      its process alive and its sub-services heard, the update acts on it exactly when it was
      started and more than its timeout plus one whole seconds have passed since, as long as
      that sum fits an `int`. */
  lemma {:induction false} ActsWhenSilent(es: seq<Event>, at: seq<Seconds>, states: seq<seq<Service>>, i: nat, u: nat, l: nat,
                                          pid: int, name: string)
    requires IsRun(es, at, states) && i < u < |es| && Calls(es[i], pid, name) && Answers(states[i], l, pid, name)
    requires es[u].Update? && es[u].live(pid, name) && SubsHeard(states[u], name, at[u])
    requires forall k :: i < k < u ==> !Touches(es[k], pid, name) && !ActsOn(es, at, states, k, pid, name)
    requires states[i][l].timeout + 1 < INT_LIMIT
    ensures ActsOn(es, at, states, u, pid, name) <==> Starts(es[i]) && at[u] - at[i] > states[i][l].timeout + 1
  {
    hide Apply, Touches, ActsOn;
    var s := NewService(pid, name, states[i][l].timeout).(active := Starts(es[i]), last := at[i]);
    CalledStays(es, at, states, i, u, l, pid, name, s);
    var k :| 0 <= k < |states[u]| && SameService(states[u][k], s);
    UpdateDecides(es, at, states, u, k, s);
    assert states[u][k].name == name;
  }

  /** In every run: a service started or heard from in event `i` and then left alone is acted
      on, and its name gone, at most `gap` seconds after its timeout plus one, where no stretch
      of `gap` seconds lacks an update. */
  lemma {:induction false} ActsInTime(es: seq<Event>, at: seq<Seconds>, states: seq<seq<Service>>, i: nat, l: nat,
                                      pid: int, name: string, gap: nat)
    requires IsRun(es, at, states) && i < |es| && Calls(es[i], pid, name) && Starts(es[i]) && Answers(states[i], l, pid, name)
    requires states[i][l].timeout + 1 < INT_LIMIT && UpdatesWithin(es, at, at[i], gap)
    requires at[|at| - 1] >= at[i] + states[i][l].timeout + 1 + gap
    requires forall k :: i < k < |es| && at[k] <= at[i] + states[i][l].timeout + 1 + gap ==> !Touches(es[k], pid, name)
    ensures exists j :: i < j < |es| && at[j] <= at[i] + states[i][l].timeout + 1 + gap && ActsOn(es, at, states, j, pid, name)
  {
    hide Touches, ActsOn, Apply;
    var t := at[i] + states[i][l].timeout + 1;
    assert UpdateAfter(es, at, t, gap);
    var due :| 0 <= due < |es| && es[due].Update? && t < at[due] <= t + gap;
    assert due > i by { assert forall k :: 0 <= k < i ==> at[k] <= at[i]; }
    assert forall k :: i < k < due ==> at[k] <= at[due];
    if forall j :: i < j < due ==> !ActsOn(es, at, states, j, pid, name) {
      var s := NewService(pid, name, states[i][l].timeout).(active := true, last := at[i]);
      CalledStays(es, at, states, i, due, l, pid, name, s);
      var k :| 0 <= k < |states[due]| && SameService(states[due][k], s);
      UpdateDecides(es, at, states, due, k, s);
    }
  }

  // ---- What sub-services are given ----

  predicate SameSub(x: Sub, y: Sub)
  {
    x.subId == y.subId && x.timeout == y.timeout && x.last == y.last && x.grace == y.grace
  }

  ghost predicate SubIn(subs: seq<Sub>, x: Sub)
  {
    exists j :: 0 <= j < |subs| && SameSub(subs[j], x)
  }

  /** The named service has a sub-service like `x`. */
  ghost predicate HasSub(ss: seq<Service>, pid: int, name: string, x: Sub)
  {
    exists l :: 0 <= l < |ss| && ss[l].pid == pid && ss[l].name == name && SubIn(ss[l].subs, x)
  }

  /** The event resets or removes the sub-service, or removes its service. */
  predicate SubTouches(e: Event, pid: int, name: string, subId: nat)
  {
    match e
    case Register(_, other, _, oldAlive, _) => Basename(other) == Basename(name) && !oldAlive
    case Unregister(p, other) => p == pid && other == name
    case SubRegister(other, _, _, alive) => Basename(other) == Basename(name) && !alive
    case SubUnregister(p, id) => p == pid && id == subId
    case SubAlive(p, other, id) => p == pid && other == name && id == subId
    case _ => false
  }

  lemma {:induction false} PutHasSub(ss: seq<Service>, r: nat, s: Service, l: nat, pid: int, name: string, x: Sub)
    requires r < |ss| && l < |ss| && ss[l].pid == pid && ss[l].name == name && SubIn(ss[l].subs, x)
    requires s.pid == ss[r].pid && s.name == ss[r].name && (r == l ==> SubIn(s.subs, x))
    ensures HasSub(ss[r := s], pid, name, x)
  {
    assert ss[r := s][l].pid == pid;
  }

  lemma {:induction false} WithoutHasSub(ss: seq<Service>, r: nat, l: nat, pid: int, name: string, x: Sub)
    requires r < |ss| && l < |ss| && r != l && ss[l].pid == pid && ss[l].name == name && SubIn(ss[l].subs, x)
    ensures HasSub(Without(ss, r), pid, name, x)
  {
    assert Without(ss, r)[if l < r then l else l - 1] == ss[l];
  }

  lemma {:induction false} SubsKeep(subs: seq<Sub>, q: nat, y: Sub, j: nat, x: Sub)
    requires q < |subs| && j < |subs| && SameSub(subs[j], x)
    ensures j != q ==> SubIn(Without(subs, q), x) && SubIn(subs[q := y], x)
    ensures SubIn(subs + [y], x)
  {
    assert SameSub((subs + [y])[j], x);
    if j != q {
      assert SameSub(Without(subs, q)[if j < q then j else j - 1], x);
      assert SameSub(subs[q := y][j], x);
    }
  }

  lemma {:induction false} RegisteredHasSub(ss: seq<Service>, e: Event, l: nat, pid: int, name: string, x: Sub)
    requires e.Register? && !SubTouches(e, pid, name, x.subId)
    requires l < |ss| && ss[l].pid == pid && ss[l].name == name && SubIn(ss[l].subs, x)
    ensures HasSub(Registered(ss, e.pid, e.name, e.timeout, e.oldAlive, e.newAlive), pid, name, x)
  {
    hide Basename, Without, SubIn;
    var r := ByName(ss, e.name);
    var ss1 := if r.Some? && !e.oldAlive then Without(ss, r.value) else ss;
    if r.Some? && !e.oldAlive {
      WithoutHasSub(ss, r.value, l, pid, name, x);
    }
    assert HasSub(ss1, pid, name, x) by { assert r.None? || e.oldAlive ==> ss1[l] == ss[l]; }
    var k :| 0 <= k < |ss1| && ss1[k].pid == pid && ss1[k].name == name && SubIn(ss1[k].subs, x);
    assert (ss1 + [NewService(e.pid, e.name, e.timeout)])[k] == ss1[k];
  }

  lemma {:induction false} UntouchedSubStays(ss: seq<Service>, e: Event, now: Seconds, l: nat, j: nat, pid: int, name: string, x: Sub)
    requires l < |ss| && ss[l].pid == pid && ss[l].name == name && j < |ss[l].subs| && SameSub(ss[l].subs[j], x)
    requires !e.Update? && !SubTouches(e, pid, name, x.subId)
    ensures HasSub(Apply(ss, e, now), pid, name, x)
  {
    hide Basename, AsInt, Without, HasSub, Registered, SubIn;
    var subs, ss' := ss[l].subs, Apply(ss, e, now);
    SubsKeep(subs, j, subs[j], j, x);
    assert SubIn(subs, x) by { SubInAt(subs, j, x); }
    PutHasSub(ss, l, ss[l], l, pid, name, x);
    assert ss[l := ss[l]] == ss;
    match e
    case Register(_, _, _, _, _) => RegisteredHasSub(ss, e, l, pid, name, x);
    case Unregister(p, other) =>
      var r := First(ss, (y: Service) => y.pid == p && y.name == other);
      if r.Some? {
        WithoutHasSub(ss, r.value, l, pid, name, x);
      }
    case StartStop(p, other, active) =>
      var r := ByPid(ss, p);
      if r.Some? {
        PutHasSub(ss, r.value, Reset(ss[r.value], active, now), l, pid, name, x);
      }
    case Alive(p, other) =>
      var r := ByPid(ss, p);
      if r.Some? {
        PutHasSub(ss, r.value, Reset(ss[r.value], true, now), l, pid, name, x);
      }
    case SubRegister(other, subId, timeout, alive) =>
      var r := ByName(ss, other);
      if r.Some? && alive {
        SubsKeep(subs, j, Sub(subId, timeout, AsInt(timeout), now, now, AsInt(timeout)), j, x);
        PutHasSub(ss, r.value, ss'[r.value], l, pid, name, x);
      } else if r.Some? {
        WithoutHasSub(ss, r.value, l, pid, name, x);
      }
    case SubUnregister(p, subId) =>
      var r := ByPid(ss, p);
      if r.Some? {
        var q := BySubId(ss[r.value].subs, subId);
        if r.value == l && q.Some? {
          SubsKeep(subs, q.value, subs[q.value], j, x);
        }
        PutHasSub(ss, r.value, ss'[r.value], l, pid, name, x);
      }
    case SubAlive(p, other, subId) =>
      var r := ByPid(ss, p);
      if r.Some? {
        var q := BySubId(ss[r.value].subs, subId);
        if r.value == l && q.Some? {
          SubsKeep(subs, q.value, ResetSub(subs[q.value], now), j, x);
        }
        PutHasSub(ss, r.value, ss'[r.value], l, pid, name, x);
      }
  }

  lemma {:induction false} SubInAt(subs: seq<Sub>, j: nat, x: Sub)
    requires j < |subs| && SameSub(subs[j], x)
    ensures SubIn(subs, x)
  {
  }

  lemma {:induction false} VisitKeepsSubs(s: Service, now: Seconds, since: Seconds, alive: (int, string) -> bool, j: nat)
    requires since <= now && OnTime(s, since) && j < |s.subs| && !Visited(s, now, alive).1
    ensures j < |Visited(s, now, alive).0.subs| && SameSub(Visited(s, now, alive).0.subs[j], s.subs[j])
  {
    CountedSubsExact(s.subs, now, since);
  }

  /** An update that does not act on the service keeps its sub-service; it acts if that one has
      been silent for more than its grace. */
  lemma {:induction false} UpdateAndSub(es: seq<Event>, at: seq<Seconds>, states: seq<seq<Service>>, u: nat, pid: int, name: string, x: Sub)
    requires IsRun(es, at, states) && u < |es| && es[u].Update? && HasSub(states[u], pid, name, x)
    requires !ActsOn(es, at, states, u, pid, name)
    ensures HasSub(states[u + 1], pid, name, x) && at[u] - x.last <= x.grace
  {
    hide Apply, Visited, Kept, Acted, Basename, OnTime;
    var ss, now, since, live := states[u], at[u], if u == 0 then 0 else at[u - 1], es[u].live;
    var l :| 0 <= l < |ss| && ss[l].pid == pid && ss[l].name == name && SubIn(ss[l].subs, x);
    var j :| 0 <= j < |ss[l].subs| && SameSub(ss[l].subs[j], x);
    RunOnTime(es, at, states, u);
    assert since <= now && OnTime(ss[l], since);
    UpdateDecides(es, at, states, u, l, ss[l]);
    VisitExact(ss[l], now, since, live);
    VisitKeepsSubs(ss[l], now, since, live, j);
    UpdateExact(ss, now, since, live);
    UpdateIsKept(ss, es[u], now);
    var v := Visited(ss[l], now, live).0;
    var k :| 0 <= k < |states[u + 1]| && states[u + 1][k] == v;
    SubInAt(v.subs, j, x);
  }

  lemma {:induction false} SubStays(es: seq<Event>, at: seq<Seconds>, states: seq<seq<Service>>, m: nat, u: nat,
                                    pid: int, name: string, x: Sub)
    requires IsRun(es, at, states) && m <= u < |states| && HasSub(states[m], pid, name, x)
    requires forall k :: m <= k < u ==> !SubTouches(es[k], pid, name, x.subId) && !ActsOn(es, at, states, k, pid, name)
    ensures HasSub(states[u], pid, name, x)
    decreases u
  {
    hide Apply, SubTouches, ActsOn, SameSub;
    if m < u {
      SubStays(es, at, states, m, u - 1, pid, name, x);
      if es[u - 1].Update? {
        UpdateAndSub(es, at, states, u - 1, pid, name, x);
      } else {
        var l :| 0 <= l < |states[u - 1]| && states[u - 1][l].pid == pid && states[u - 1][l].name == name && SubIn(states[u - 1][l].subs, x);
        var j :| 0 <= j < |states[u - 1][l].subs| && SameSub(states[u - 1][l].subs[j], x);
        UntouchedSubStays(states[u - 1], es[u - 1], at[u - 1], l, j, pid, name, x);
      }
    }
  }

  /** The `l`th service is the first of that base name. */
  ghost predicate IsNamed(ss: seq<Service>, l: nat, name: string)
  {
    l < |ss| && Named(ss[l], name) && forall j :: 0 <= j < l ==> !Named(ss[j], name)
  }

  /** In every run, a sub-service registered with a live service is the last of its, with its
      timeout for a countdown from that second on, and nothing else changes. */
  lemma {:induction false} SubRegisterSets(es: seq<Event>, at: seq<Seconds>, states: seq<seq<Service>>, i: nat, l: nat,
                                           name: string, subId: nat, timeout: nat)
    requires IsRun(es, at, states) && i < |es| && es[i] == SubRegister(name, subId, timeout, true) && IsNamed(states[i], l, name)
    ensures |states[i + 1]| == |states[i]| && forall j :: 0 <= j < |states[i]| && j != l ==> states[i + 1][j] == states[i][j]
    ensures var s, s' := states[i][l], states[i + 1][l];
            && s'.subs != [] && s' == s.(subs := s.subs + [s'.subs[|s'.subs| - 1]])
            && var x := s'.subs[|s'.subs| - 1];
               x.subId == subId && x.timeout == timeout && x.last == at[i] && x.grace == AsInt(timeout)
  {
    hide Basename;
    FirstFromIs(states[i], (s: Service) => Named(s, name), 0, l);
    assert states[i + 1] == Apply(states[i], es[i], at[i]);
  }

  /** In every run, an ALIVE of a sub-service sets its countdown, from that second on, to its
      timeout plus one, and nothing else changes. */
  lemma {:induction false} SubAliveSets(es: seq<Event>, at: seq<Seconds>, states: seq<seq<Service>>, i: nat, l: nat, q: nat,
                                        pid: int, name: string, subId: nat)
    requires IsRun(es, at, states) && i < |es| && es[i] == SubAlive(pid, name, subId) && Answers(states[i], l, pid, name)
    requires IsFirst(states[i][l].subs, (x: Sub) => x.subId == subId, q)
    ensures |states[i + 1]| == |states[i]| && forall j :: 0 <= j < |states[i]| && j != l ==> states[i + 1][j] == states[i][j]
    ensures var s, s' := states[i][l], states[i + 1][l];
            && |s'.subs| == |s.subs| && s' == s.(subs := s.subs[q := s'.subs[q]])
            && var x, x' := s.subs[q], s'.subs[q];
               x'.subId == subId && x'.timeout == x.timeout && x'.last == at[i] && x'.grace == AsInt(x.timeout + 1)
  {
    FirstIs(states[i], l, pid, name);
    SubFirstIs(states[i][l].subs, subId, q);
    PlusOneAsInt(states[i][l].subs[q].timeout);
    assert states[i + 1] == Apply(states[i], es[i], at[i]);
  }

  lemma {:induction false} SubFirstIs(subs: seq<Sub>, subId: nat, q: nat)
    requires IsFirst(subs, (x: Sub) => x.subId == subId, q)
    ensures BySubId(subs, subId) == Some(q)
  {
    FirstFromIs(subs, (x: Sub) => x.subId == subId, 0, q);
  }

  lemma PlusOneAsInt(timeout: nat)
    ensures AsInt(AsInt(timeout) + 1) == AsInt(timeout + 1)
  {
  }

  /** In every run: with event `i` the last that set the sub-service's countdown, to `grace`,
      the update acts on its service if more than that many seconds have passed since. */
  lemma {:induction false} SubActsWhenSilent(es: seq<Event>, at: seq<Seconds>, states: seq<seq<Service>>, i: nat, u: nat, l: nat, q: nat,
                                             pid: int, name: string, subId: nat, grace: int)
    requires IsRun(es, at, states) && i < u < |es| && es[u].Update? && l < |states[i]|
    requires states[i][l].pid == pid && states[i][l].name == name
    requires || (es[i] == SubAlive(pid, name, subId) && Answers(states[i], l, pid, name)
                 && IsFirst(states[i][l].subs, (x: Sub) => x.subId == subId, q) && grace == AsInt(states[i][l].subs[q].timeout + 1))
             || (es[i].SubRegister? && es[i].alive && es[i].subId == subId && IsNamed(states[i], l, es[i].name)
                 && grace == AsInt(es[i].timeout))
    requires forall k :: i < k < u ==> !SubTouches(es[k], pid, name, subId) && !ActsOn(es, at, states, k, pid, name)
    requires at[u] - at[i] > grace
    ensures ActsOn(es, at, states, u, pid, name)
  {
    hide Apply, SubTouches, ActsOn, IsFirst;
    var x: Sub;
    if es[i].SubAlive? {
      SubAliveSets(es, at, states, i, l, q, pid, name, subId);
      assert q < |states[i][l].subs| by { SubFirstIs(states[i][l].subs, subId, q); }
      x := states[i + 1][l].subs[q];
      SubInAt(states[i + 1][l].subs, q, x);
    } else {
      SubRegisterSets(es, at, states, i, l, es[i].name, subId, es[i].timeout);
      var n := |states[i + 1][l].subs| - 1;
      x := states[i + 1][l].subs[n];
      SubInAt(states[i + 1][l].subs, n, x);
    }
    assert HasSub(states[i + 1], pid, name, x);
    SubStays(es, at, states, i + 1, u, pid, name, x);
    if !ActsOn(es, at, states, u, pid, name) {
      UpdateAndSub(es, at, states, u, pid, name, x);
    }
  }

  // ---- Where timeouts come from ----

  /** The event registers the service, with this timeout. */
  ghost predicate Registers(e: Event, s: Service)
  {
    e.Register? && e.pid == s.pid && e.name == s.name && e.timeout == s.timeout
  }

  ghost predicate RegisteredBy(es: seq<Event>, i: nat, s: Service)
    requires i <= |es|
  {
    exists a :: 0 <= a < i && Registers(es[a], s)
  }

  ghost predicate KnownIn(ss: seq<Service>, s: Service)
  {
    exists l :: 0 <= l < |ss| && ss[l].pid == s.pid && ss[l].name == s.name && ss[l].timeout == s.timeout
  }

  lemma {:induction false} StepKnows(ss: seq<Service>, e: Event, now: Seconds, l: nat)
    requires l < |Apply(ss, e, now)|
    ensures KnownIn(ss, Apply(ss, e, now)[l]) || Registers(e, Apply(ss, e, now)[l])
  {
    hide Basename, AsInt, Visited, Kept;
    var ss' := Apply(ss, e, now);
    if e.Update? {
      KeptAreFrom(ss, now, e.live);
      assert KeptFrom(ss, now, e.live, ss'[l]);
      var i :| 0 <= i < |ss| && ss'[l] == Visited(ss[i], now, e.live).0;
      VisitedKnown(ss[i], now, e.live);
    } else {
      assert (l < |ss| && ss'[l].name == ss[l].name && ss'[l].pid == ss[l].pid && ss'[l].timeout == ss[l].timeout)
             || (l + 1 < |ss| && ss'[l] == ss[l + 1]) || Registers(e, ss'[l]);
    }
  }

  lemma VisitedKnown(s: Service, now: Seconds, alive: (int, string) -> bool)
    ensures var v := Visited(s, now, alive).0;
            v.pid == s.pid && v.name == s.name && v.timeout == s.timeout
  {
  }

  /** In every run, a service has the pid, the name and the timeout it was registered with. */
  lemma {:induction false} TimeoutsAsRegistered(es: seq<Event>, at: seq<Seconds>, states: seq<seq<Service>>, i: nat, l: nat)
    requires IsRun(es, at, states) && i < |states| && l < |states[i]|
    ensures RegisteredBy(es, i, states[i][l])
    decreases i
  {
    hide Apply;
    if i > 0 {
      var s := states[i][l];
      StepKnows(states[i - 1], es[i - 1], at[i - 1], l);
      if KnownIn(states[i - 1], s) {
        var k :| 0 <= k < |states[i - 1]| && states[i - 1][k].pid == s.pid && states[i - 1][k].name == s.name && states[i - 1][k].timeout == s.timeout;
        TimeoutsAsRegistered(es, at, states, i - 1, k);
        var a :| 0 <= a < i - 1 && Registers(es[a], states[i - 1][k]);
        assert Registers(es[a], s);
      } else {
        assert Registers(es[i - 1], s);
      }
    }
  }

  lemma {:induction false} UpdateHead(s: Service, rest: seq<Service>, now: Seconds, alive: (int, string) -> bool)
    ensures var v := Visited(s, now, alive);
            && Kept([s] + rest, now, alive) == (if v.1 then [] else [v.0]) + Kept(rest, now, alive)
            && Acted([s] + rest, now, alive) == (if v.1 then [v.0] else []) + Acted(rest, now, alive)
  {
    hide Visited;
    assert ([s] + rest)[1..] == rest;
  }

  lemma Associative<T>(a: seq<T>, b: seq<T>, c: seq<T>)
    ensures (a + b) + c == a + (b + c)
  {
  }

  /** Updates work on the services one after another. */
  lemma {:induction false} KeptInOrder(ss: seq<Service>, more: seq<Service>, now: Seconds, alive: (int, string) -> bool)
    ensures Kept(ss + more, now, alive) == Kept(ss, now, alive) + Kept(more, now, alive)
    ensures Acted(ss + more, now, alive) == Acted(ss, now, alive) + Acted(more, now, alive)
  {
    if ss == [] {
      assert ss + more == more;
    } else {
      hide Visited, Kept, Acted;
      var rest, v := ss[1..], Visited(ss[0], now, alive);
      assert ss == [ss[0]] + rest;
      Associative([ss[0]], rest, more);
      UpdateHead(ss[0], rest, now, alive);
      UpdateHead(ss[0], rest + more, now, alive);
      KeptInOrder(rest, more, now, alive);
      Associative(if v.1 then [] else [v.0], Kept(rest, now, alive), Kept(more, now, alive));
      Associative(if v.1 then [v.0] else [], Acted(rest, now, alive), Acted(more, now, alive));
    }
  }
}

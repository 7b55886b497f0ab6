/** service/watchdog/watchdog.c: the watchdog thread's registry and its periodic update. */
module Watchdogs {
  import opened WatchdogState
  import opened Options
  import opened Sequences

  const PERIOD: Seconds := 5

  // ---- One round of each loop ----

  lemma {:induction false} ReplaceHead(done: seq<Service>, rest: seq<Service>, x: Service)
    requires rest != []
    ensures var s, i := done + rest, |done|;
            && s[i] == rest[0] && s[i := x] == (done + [x]) + rest[1..]
            && s[i := x][..i] + s[i := x][i + 1..] == done + rest[1..]
  {
    assert rest == [rest[0]] + rest[1..];
  }

  lemma {:induction false} KeptRound(done: seq<Service>, rest: seq<Service>, now: Seconds, live: (int, string) -> bool)
    requires rest != []
    ensures var v := Visited(rest[0], now, live);
            done + Kept(rest, now, live) == (if v.1 then done else done + [v.0]) + Kept(rest[1..], now, live)
  {
    var v, k := Visited(rest[0], now, live), Kept(rest[1..], now, live);
    assert done + ([v.0] + k) == done + [v.0] + k && [] + k == k;
  }

  lemma {:induction false} ActedRound(done: seq<Service>, rest: seq<Service>, now: Seconds, live: (int, string) -> bool)
    requires rest != []
    ensures var v := Visited(rest[0], now, live);
            done + Acted(rest, now, live) == (if v.1 then done + [v.0] else done) + Acted(rest[1..], now, live)
  {
    var v, k := Visited(rest[0], now, live), Acted(rest[1..], now, live);
    assert done + ([v.0] + k) == done + [v.0] + k && [] + k == k;
  }

  lemma {:induction false} SubsRound(done: seq<Sub>, rest: seq<Sub>, now: Seconds)
    requires rest != []
    ensures var c, r, r1 := CountedSub(rest[0], now), CountedSubs(rest, now), CountedSubs(rest[1..], now);
            if c.expireCount < 0 then r.1 && done + r.0 == done + [c] + rest[1..]
            else r.1 == r1.1 && done + r.0 == (done + [c]) + r1.0
  {
  }

  lemma {:induction false} SubsEnd(now: Seconds)
    ensures CountedSubs([], now) == ([], false)
  {
  }

  lemma {:induction false} UpdateEnd(now: Seconds, live: (int, string) -> bool)
    ensures Kept([], now, live) == [] && Acted([], now, live) == []
  {
  }

  /** A service as it is registered: not active, and with no sub-service. */
  ghost predicate IsNew(s: Service, pid: int, name: string, timeout: nat)
  {
    s.pid == pid && s.name == name && s.timeout == timeout && !s.active && s.subs == [] && s.expireCount == 0
  }

  /** The `l`th service is the first with both pid and name. */
  ghost predicate IsExactly(ss: seq<Service>, l: nat, pid: int, name: string)
  {
    l < |ss| && ss[l].pid == pid && ss[l].name == name && forall j :: 0 <= j < l ==> !(ss[j].pid == pid && ss[j].name == name)
  }

  /** The `l`th service is the first with the pid, and its `q`th sub-service the first with the id. */
  ghost predicate IsSub(ss: seq<Service>, l: nat, q: nat, pid: int, subId: nat)
  {
    && l < |ss| && Answers(ss, l, pid, ss[l].name) && q < |ss[l].subs| && ss[l].subs[q].subId == subId
    && (forall j :: 0 <= j < q ==> ss[l].subs[j].subId != subId)
  }

  /** One service has been told at `now` that it is active, or that it is not. */
  ghost predicate Told(s: Service, s': Service, active: bool, now: Seconds)
  {
    && s' == s.(active := active, expireCount := s'.expireCount, ats := now, last := now, grace := s'.expireCount)
    && (s.timeout + 1 < 0x8000_0000 ==> s'.expireCount == s.timeout + 1)
  }

  lemma {:induction false} AnswersAre(ss: seq<Service>, pid: int, name: string)
    ensures forall l: nat :: Answers(ss, l, pid, name) ==> ByPid(ss, pid) == Some(l)
    ensures forall l: nat :: ByPid(ss, pid) == Some(l) && ss[l].name == name ==> Answers(ss, l, pid, name)
  {
    forall l: nat | Answers(ss, l, pid, name)
      ensures ByPid(ss, pid) == Some(l)
    {
      FirstIs(ss, l, pid, name);
    }
  }

  lemma {:induction false} NamesAre(ss: seq<Service>, name: string)
    ensures forall l: nat :: IsNamed(ss, l, name) ==> ByName(ss, name) == Some(l)
  {
    hide Basename;
    forall l: nat | IsNamed(ss, l, name)
      ensures ByName(ss, name) == Some(l)
    {
      FirstFromIs(ss, (s: Service) => Named(s, name), 0, l);
    }
  }

  lemma {:induction false} SubsAre(ss: seq<Service>, pid: int, subId: nat)
    ensures forall l: nat, q: nat :: IsSub(ss, l, q, pid, subId) ==> ByPid(ss, pid) == Some(l) && BySubId(ss[l].subs, subId) == Some(q)
    ensures forall l: nat, q: nat :: ByPid(ss, pid) == Some(l) && BySubId(ss[l].subs, subId) == Some(q) ==> IsSub(ss, l, q, pid, subId)
  {
    forall l: nat, q: nat | IsSub(ss, l, q, pid, subId)
      ensures ByPid(ss, pid) == Some(l) && BySubId(ss[l].subs, subId) == Some(q)
    {
      FirstIs(ss, l, pid, ss[l].name);
      SubFirstIs(ss[l].subs, subId, q);
    }
  }

  class Watchdog {
    var services: seq<Service>
    /** When the last update ran. */
    var lts: Seconds
    /** The services acted on, in order: history. */
    var acted: seq<Service>

    constructor (now: Seconds)
      ensures services == [] && acted == [] && lts == now
    {
      services, acted, lts := [], [], now;
    }

    // ---- Looking up ----

    method GetServiceWithPid(pid: int) returns (r: Option<nat>)
      ensures r == ByPid(services, pid)
    {
      var i := 0;
      while i < |services|
        invariant i <= |services| && ByPid(services, pid) == FirstFrom(services, (s: Service) => s.pid == pid, i)
      {
        if services[i].pid == pid {
          return Some(i);
        }
        i := i + 1;
      }
      return None;
    }

    method GetServiceWithName(name: string) returns (r: Option<nat>)
      ensures r == ByName(services, name)
    {
      var i := 0;
      while i < |services|
        invariant i <= |services| && ByName(services, name) == FirstFrom(services, (s: Service) => Named(s, name), i)
      {
        if Named(services[i], name) {
          return Some(i);
        }
        i := i + 1;
      }
      return None;
    }

    method GetSubService(subs: seq<Sub>, subId: nat) returns (r: Option<nat>)
      ensures r == BySubId(subs, subId)
    {
      var i := 0;
      while i < |subs|
        invariant i <= |subs| && BySubId(subs, subId) == FirstFrom(subs, (s: Sub) => s.subId == subId, i)
      {
        if subs[i].subId == subId {
          return Some(i);
        }
        i := i + 1;
      }
      return None;
    }

    // ---- Events ----

    /** `oldAlive` and `newAlive` are what the process table says of the registered process
        and of the one registering. */
    method AddService(pid: int, name: string, timeout: nat, oldAlive: bool, newAlive: bool) returns (added: bool)
      modifies this`services
      ensures services == Registered(old(services), pid, name, timeout, oldAlive, newAlive)
      ensures added <==> newAlive && (!oldAlive || NoneNamed(old(services), name))
      ensures added ==> |services| > 0 && IsNew(services[|services| - 1], pid, name, timeout)
      ensures var rest := if added then services[..|services| - 1] else services;
              if oldAlive || NoneNamed(old(services), name) then rest == old(services)
              else exists l: nat :: IsNamed(old(services), l, name) && rest == old(services)[..l] + old(services)[l + 1..]
    {
      var enter := true;
      var r := GetServiceWithName(name);
      if r.Some? {
        if oldAlive {
          enter := false;
        } else {
          services := services[..r.value] + services[r.value + 1..];
        }
      }
      added := enter && newAlive;
      if added {
        services := services + [NewService(pid, name, timeout)];
      }
    }

    method RemoveService(pid: int, name: string) returns (removed: bool)
      modifies this`services
      ensures services == Apply(old(services), Unregister(pid, name), 0)
      ensures removed ==> exists l: nat :: IsExactly(old(services), l, pid, name) && services == old(services)[..l] + old(services)[l + 1..]
      ensures !removed ==> services == old(services) && forall l: nat :: !IsExactly(services, l, pid, name)
    {
      ghost var p := (s: Service) => s.pid == pid && s.name == name;
      var i := 0;
      while i < |services|
        invariant i <= |services| && services == old(services)
        invariant First(services, (s: Service) => s.pid == pid && s.name == name)
                  == FirstFrom(services, (s: Service) => s.pid == pid && s.name == name, i)
      {
        if services[i].pid == pid {
          if services[i].name == name {
            services := services[..i] + services[i + 1..];
            assert |services| != |old(services)|;
            return true;
          }
        }
        i := i + 1;
      }
      return false;
    }

    method ServiceStartStop(pid: int, name: string, active: bool, now: Seconds)
      modifies this`services
      ensures services == Apply(old(services), StartStop(pid, name, active), now)
      ensures forall l: nat :: Answers(old(services), l, pid, name) ==>
                |services| == |old(services)| && Told(old(services)[l], services[l], active, now) && services == old(services)[l := services[l]]
      ensures (forall l: nat :: !Answers(old(services), l, pid, name)) ==> services == old(services)
    {
      AnswersAre(services, pid, name);
      var r := GetServiceWithPid(pid);
      if r.Some? && services[r.value].name == name {
        services := services[r.value := Reset(services[r.value], active, now)];
      }
    }

    method ServiceAlive(pid: int, name: string, now: Seconds)
      modifies this`services
      ensures services == Apply(old(services), Alive(pid, name), now)
      ensures forall l: nat :: Answers(old(services), l, pid, name) ==>
                |services| == |old(services)| && Told(old(services)[l], services[l], true, now) && services == old(services)[l := services[l]]
      ensures (forall l: nat :: !Answers(old(services), l, pid, name)) ==> services == old(services)
    {
      AnswersAre(services, pid, name);
      var r := GetServiceWithPid(pid);
      if r.Some? && services[r.value].name == name {
        services := services[r.value := Reset(services[r.value], true, now)];
      }
    }

    method AddSubService(name: string, subId: nat, timeout: nat, alive: bool, now: Seconds)
      modifies this`services
      ensures services == Apply(old(services), SubRegister(name, subId, timeout, alive), now)
      ensures forall l: nat :: IsNamed(old(services), l, name) && alive ==>
                var s := old(services)[l];
                services == old(services)[l := s.(subs := s.subs + [Sub(subId, timeout, AsInt(timeout), now, now, AsInt(timeout))])]
      ensures forall l: nat :: IsNamed(old(services), l, name) && !alive ==> services == old(services)[..l] + old(services)[l + 1..]
      ensures NoneNamed(old(services), name) ==> services == old(services)
    {
      NamesAre(services, name);
      var r := GetServiceWithName(name);
      if r.Some? {
        if alive {
          var s := services[r.value];
          services := services[r.value := s.(subs := s.subs + [Sub(subId, timeout, AsInt(timeout), now, now, AsInt(timeout))])];
        } else {
          services := services[..r.value] + services[r.value + 1..];
        }
      }
    }

    method RemoveSubService(pid: int, subId: nat)
      modifies this`services
      ensures services == Apply(old(services), SubUnregister(pid, subId), 0)
      ensures forall l: nat, q: nat :: IsSub(old(services), l, q, pid, subId) ==>
                var s := old(services)[l];
                services == old(services)[l := s.(subs := s.subs[..q] + s.subs[q + 1..])]
      ensures (forall l: nat, q: nat :: !IsSub(old(services), l, q, pid, subId)) ==> services == old(services)
    {
      SubsAre(services, pid, subId);
      var r := GetServiceWithPid(pid);
      if r.Some? {
        var s := services[r.value];
        var q := GetSubService(s.subs, subId);
        if q.Some? {
          services := services[r.value := s.(subs := s.subs[..q.value] + s.subs[q.value + 1..])];
        }
      }
    }

    method ServiceSubAlive(pid: int, name: string, subId: nat, now: Seconds)
      modifies this`services
      ensures services == Apply(old(services), SubAlive(pid, name, subId), now)
      ensures forall l: nat, q: nat :: IsSub(old(services), l, q, pid, subId) && old(services)[l].name == name ==>
                var s := old(services)[l];
                var x := s.subs[q];
                services == old(services)[l := s.(subs := s.subs[q := Sub(subId, x.timeout, AsInt(x.timeout + 1), now, now, AsInt(x.timeout + 1))])]
      ensures (forall l: nat, q: nat :: !(IsSub(old(services), l, q, pid, subId) && old(services)[l].name == name)) ==>
                services == old(services)
    {
      hide AsInt, Kept, Registered, Basename;
      SubsAre(services, pid, subId);
      var r := GetServiceWithPid(pid);
      if r.Some? && services[r.value].name == name {
        var s := services[r.value];
        var q := GetSubService(s.subs, subId);
        if q.Some? {
          PlusOneAsInt(s.subs[q.value].timeout);
          services := services[r.value := s.(subs := s.subs[q.value := ResetSub(s.subs[q.value], now)])];
        }
      }
    }

    // ---- Updates ----

    /** Counts the sub-services down, up to the first that has expired. */
    method SubServiceUpdate(subs: seq<Sub>, now: Seconds) returns (counted: seq<Sub>, expired: bool)
      ensures (counted, expired) == CountedSubs(subs, now)
    {
      hide CountedSubs, CountedSub;
      counted, expired := subs, false;
      var i := 0;
      ghost var done, rest: seq<Sub> := [], subs;
      while i < |subs|
        invariant i <= |subs| && counted == done + rest && |done| == i && rest == subs[i..] && !expired
        invariant CountedSubs(subs, now).0 == done + CountedSubs(rest, now).0
        invariant CountedSubs(subs, now).1 == CountedSubs(rest, now).1
      {
        SubsRound(done, rest, now);
        var c := CountedSub(counted[i], now);
        counted := counted[i := c];
        assert counted == done + [c] + rest[1..];
        if c.expireCount < 0 {
          expired := true;
          return;
        }
        done, rest := done + [c], rest[1..];
        i := i + 1;
      }
      assert CountedSubs([], now) == ([], false) by { SubsEnd(now); }
    }

    /** One service's turn. */
    method VisitService(i: nat, now: Seconds, live: (int, string) -> bool) returns (act: bool)
      requires i < |services|
      modifies this`services
      ensures services == old(services)[i := Visited(old(services)[i], now, live).0]
      ensures act == Visited(old(services)[i], now, live).1
    {
      act := false;
      if live(services[i].pid, services[i].name) {
        if services[i].active {
          var s := services[i];
          services := services[i := s.(expireCount := s.expireCount - (now - s.ats), ats := now)];
        }
        if services[i].expireCount < 0 {
          act := true;
        }
      } else {
        act := true;
      }
      if !act {
        var subs, expired := SubServiceUpdate(services[i].subs, now);
        services := services[i := services[i].(subs := subs)];
        act := expired;
      }
    }

    /** The walk over the services, which goes on from the previous one after a deletion. */
    method ServiceUpdate(now: Seconds, live: (int, string) -> bool)
      modifies this`services, this`acted
      ensures services == Apply(old(services), Update(live), now)
      ensures acted == old(acted) + Acted(old(services), now, live)
    {
      assert Apply(services, Update(live), now) == Kept(services, now, live);
      hide Visited, Kept, Acted, Apply;
      ghost var done, rest: seq<Service> := [], services;
      var i := 0;
      while i < |services|
        invariant services == done + rest && |done| == i
        invariant done + Kept(rest, now, live) == Kept(old(services), now, live)
        invariant acted + Acted(rest, now, live) == old(acted) + Acted(old(services), now, live)
        decreases |rest|
      {
        KeptRound(done, rest, now, live);
        ActedRound(acted, rest, now, live);
        ghost var v := Visited(rest[0], now, live);
        ReplaceHead(done, rest, v.0);
        var act := VisitService(i, now, live);
        if act {
          acted := acted + [services[i]];
          services := services[..i] + services[i + 1..];
        } else {
          i := i + 1;
          done := done + [v.0];
        }
        rest := rest[1..];
      }
      UpdateEnd(now, live);
    }

    /** `processWDUpdate`: at most one update every PERIOD seconds. */
    method ProcessUpdate(now: Seconds, live: (int, string) -> bool)
      requires lts <= now
      modifies this
      ensures now - old(lts) >= PERIOD ==> lts == now && services == Apply(old(services), Update(live), now)
      ensures now - old(lts) < PERIOD ==> lts == old(lts) && services == old(services) && acted == old(acted)
    {
      if now - lts >= PERIOD {
        ServiceUpdate(now, live);
        lts := now;
      }
    }
  }
}

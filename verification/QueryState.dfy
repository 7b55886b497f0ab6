/** lib/pfquery/pfquery.c and the key counter of drivers/vmq/main.c: requests wait under a key
    and replies find them by it. */
module QueryState {
  import opened Arithmetic
  import opened Options
  import opened Sequences

  const KEYS: nat := UINT_LIMIT - 1
  const FIRST_KEY: nat := 0x0801_2015
  const ONE_DAY: nat := 86400
  const STEPS: nat := 4

  // ---- Keys ----

  /** `unique_key ++`, stepping over zero. */
  function NextKey(key: nat): nat
  {
    var k := (key + 1) % UINT_LIMIT;
    if k == 0 then 1 else k
  }

  /** The key of the `n`th grant. */
  function KeyOf(n: nat): nat
  {
    if n == 0 then FIRST_KEY else NextKey(KeyOf(n - 1))
  }

  lemma {:induction false} KeyOfClosed(n: nat)
    ensures KeyOf(n) == (FIRST_KEY - 1 + n) % KEYS + 1
  {
    if n > 0 {
      KeyOfClosed(n - 1);
      CycleStep(FIRST_KEY - 1 + (n - 1));
    }
  }

  lemma {:induction false} CycleStep(a: nat)
    ensures NextKey(a % KEYS + 1) == (a + 1) % KEYS + 1
  {
  }

  /** Keys are never zero, and two grants share one exactly when a multiple of 2^32 - 1 grants
      apart: any 2^32 - 1 in a row are distinct. */
  lemma {:induction false} KeysDistinct(m: nat, n: nat)
    ensures KeyOf(m) != 0 && (KeyOf(m) == KeyOf(n) <==> (m - n) % KEYS == 0)
    ensures m < n < m + KEYS ==> KeyOf(m) != KeyOf(n)
  {
    KeyOfClosed(m);
    KeyOfClosed(n);
    SameResidue(FIRST_KEY - 1 + m, FIRST_KEY - 1 + n);
  }

  lemma SameResidue(a: int, b: int)
    ensures a % KEYS == b % KEYS <==> (a - b) % KEYS == 0
  {
  }

  // ---- Waiting ----

  datatype Reply = Reply(key: nat, payload: int)

  /** A request on the wait list. `grant` is the number of its key; `start` is history: the
      replies processed before it was listed. */
  datatype Item = Item(grant: nat, reply: Option<Reply>, start: nat)

  /** A requester has its key, waits on the list, or has returned with a reply or without.
      `limit`, the first `waitCount`, and `rounds`, the waits begun, are history. */
  datatype Phase =
    | Granted
    | Waiting(published: bool, waitCount: nat, run: bool, limit: nat, rounds: nat)
    | Returned(reply: Option<Reply>, limit: nat, rounds: nat)

  /** Requesters are named by their grants. `log` is history: the replies processed. */
  datatype State = State(requesters: seq<Phase>, waiting: seq<Item>, log: seq<Reply>)

  datatype Event =
    | Grant
    | Register(id: nat, timeout: int)
    | Publish(id: nat)
    | Round(id: nat)
    | Leave(id: nat)
    | Process(reply: Reply, isReply: bool)

  /** `waitCount` as the timeout, an `int`, sets it. */
  function WaitCount(timeout: int): nat
  {
    (if timeout == 0 then ONE_DAY else timeout) * STEPS % UINT_LIMIT
  }

  /** `--waitCount` */
  function Less(count: nat): nat
  {
    if count == 0 then UINT_LIMIT - 1 else count - 1
  }

  /** The first item on the list with the key, as the replier finds it. */
  function ByKey(waiting: seq<Item>, key: nat): Option<nat>
  {
    FirstFrom(waiting, (x: Item) => KeyOf(x.grant) == key, 0)
  }

  function ByGrant(waiting: seq<Item>, grant: nat): Option<nat>
  {
    FirstFrom(waiting, (x: Item) => x.grant == grant, 0)
  }

  ghost predicate Enabled(s: State, e: Event)
  {
    match e
    case Grant => true
    case Register(id, timeout) => id < |s.requesters| && s.requesters[id].Granted?
    case Publish(id) => id < |s.requesters| && s.requesters[id].Waiting? && !s.requesters[id].published
    case Round(id) =>
      && id < |s.requesters| && s.requesters[id].Waiting? && s.requesters[id].published
      && s.requesters[id].run && Less(s.requesters[id].waitCount) != 0 && ByGrant(s.waiting, id).Some?
    case Leave(id) =>
      && id < |s.requesters| && s.requesters[id].Waiting? && s.requesters[id].published
      && (!s.requesters[id].run || Less(s.requesters[id].waitCount) == 0) && ByGrant(s.waiting, id).Some?
    case Process(reply, isReply) => true
  }

  function Stored(x: Item, reply: Reply): Item
  {
    x.(reply := Some(reply))
  }

  ghost function Apply(s: State, e: Event): State
    requires Enabled(s, e)
  {
    match e
    case Grant => s.(requesters := s.requesters + [Granted])
    case Register(id, timeout) =>
      s.(requesters := s.requesters[id := Waiting(false, WaitCount(timeout), true, WaitCount(timeout), 0)],
         waiting := s.waiting + [Item(id, None, |s.log|)])
    case Publish(id) => s.(requesters := s.requesters[id := s.requesters[id].(published := true)])
    case Round(id) =>
      var p, i := s.requesters[id], ByGrant(s.waiting, id).value;
      s.(requesters := s.requesters[id := p.(waitCount := Less(p.waitCount), run := s.waiting[i].reply.None?, rounds := p.rounds + 1)])
    case Leave(id) =>
      var p, i := s.requesters[id], ByGrant(s.waiting, id).value;
      s.(requesters := s.requesters[id := Returned(s.waiting[i].reply, p.limit, p.rounds)],
         waiting := Without(s.waiting, i))
    case Process(reply, isReply) =>
      var r := ByKey(s.waiting, reply.key);
      if isReply && reply.key != 0 then
        s.(log := s.log + [reply], waiting := if r.Some? then s.waiting[r.value := Stored(s.waiting[r.value], reply)] else s.waiting)
      else s
  }

  ghost predicate Init(s: State)
  {
    s == State([], [], [])
  }

  ghost predicate IsRun(es: seq<Event>, states: seq<State>)
  {
    && |states| == |es| + 1 && Init(states[0])
    && forall i :: 0 <= i < |es| ==> Enabled(states[i], es[i]) && states[i + 1] == Apply(states[i], es[i])
  }

  // ---- The invariant ----

  /** The last reply with `key` among those processed from `start` to `end`. */
  function LastReply(log: seq<Reply>, start: nat, end: nat, key: nat): (r: Option<Reply>)
    requires start <= end <= |log|
    ensures r.Some? ==> r.value.key == key && exists i :: start <= i < end && log[i] == r.value
    ensures r.None? ==> forall i :: start <= i < end ==> log[i].key != key
    decreases end
  {
    if start == end then None
    else if log[end - 1].key == key then Some(log[end - 1])
    else LastReply(log, start, end - 1, key)
  }

  ghost predicate ItemOk(s: State, i: nat)
    requires i < |s.waiting|
  {
    var x := s.waiting[i];
    && x.grant < |s.requesters| && s.requesters[x.grant].Waiting?
    && x.start <= |s.log| && x.reply == LastReply(s.log, x.start, |s.log|, KeyOf(x.grant))
    && (x.reply.None? ==> s.requesters[x.grant].run)
  }

  ghost predicate PhaseOk(s: State, id: nat)
    requires id < |s.requesters|
  {
    match s.requesters[id]
    case Granted => true
    case Waiting(published, waitCount, run, limit, rounds) =>
      && (exists i :: 0 <= i < |s.waiting| && s.waiting[i].grant == id)
      && waitCount < UINT_LIMIT && limit < UINT_LIMIT && rounds <= Less(limit)
      && waitCount == if rounds <= limit then limit - rounds else UINT_LIMIT + limit - rounds
    case Returned(reply, limit, rounds) => rounds <= Less(limit)
  }

  ghost predicate Inv(s: State)
  {
    && (forall i :: 0 <= i < |s.waiting| ==> ItemOk(s, i))
    && (forall i, j :: 0 <= i < j < |s.waiting| ==> s.waiting[i].grant != s.waiting[j].grant)
    && (forall id :: 0 <= id < |s.requesters| ==> PhaseOk(s, id))
  }

  /** No two waiting requests are a multiple of 2^32 - 1 grants apart. */
  ghost predicate Close(s: State)
  {
    forall i, j :: 0 <= i < j < |s.waiting| ==> (s.waiting[i].grant - s.waiting[j].grant) % KEYS != 0
  }

  /** Then no two share a key, and a reply finds the one request it is for. */
  lemma {:induction false} ReplyFindsIts(s: State, i: nat)
    requires Close(s) && i < |s.waiting|
    ensures ByKey(s.waiting, KeyOf(s.waiting[i].grant)) == Some(i)
  {
    hide KeyOf;
    forall j | 0 <= j < i
      ensures KeyOf(s.waiting[j].grant) != KeyOf(s.waiting[i].grant)
    {
      KeysDistinct(s.waiting[j].grant, s.waiting[i].grant);
    }
    forall j | i < j < |s.waiting|
      ensures KeyOf(s.waiting[j].grant) != KeyOf(s.waiting[i].grant)
    {
      KeysDistinct(s.waiting[i].grant, s.waiting[j].grant);
    }
  }

  /** And only then does every waiting request have its replies find it. */
  lemma {:induction false} RepliesFindAllIff(s: State)
    ensures Close(s) <==> forall i :: 0 <= i < |s.waiting| ==> ByKey(s.waiting, KeyOf(s.waiting[i].grant)) == Some(i)
  {
    hide KeyOf;
    if Close(s) {
      forall i | 0 <= i < |s.waiting|
        ensures ByKey(s.waiting, KeyOf(s.waiting[i].grant)) == Some(i)
      {
        ReplyFindsIts(s, i);
      }
    } else {
      var i, j :| 0 <= i < j < |s.waiting| && (s.waiting[i].grant - s.waiting[j].grant) % KEYS == 0;
      KeysDistinct(s.waiting[i].grant, s.waiting[j].grant);
      assert ByKey(s.waiting, KeyOf(s.waiting[j].grant)) != Some(j);
    }
  }

  lemma {:induction false} LastReplyPrefix(log: seq<Reply>, r: Reply, start: nat, end: nat, key: nat)
    requires start <= end <= |log|
    ensures LastReply(log + [r], start, end, key) == LastReply(log, start, end, key)
    decreases end
  {
    if start < end {
      LastReplyPrefix(log, r, start, end - 1, key);
    }
  }

  lemma {:induction false} PhasesKept(s: State, s': State, except: nat)
    requires forall id :: 0 <= id < |s.requesters| ==> PhaseOk(s, id)
    requires |s.requesters| <= |s'.requesters|
    requires forall id :: 0 <= id < |s.requesters| && id != except ==> s'.requesters[id] == s.requesters[id]
    requires s'.log == s.log
    requires forall i :: 0 <= i < |s.waiting| && s.waiting[i].grant != except ==>
               exists j :: 0 <= j < |s'.waiting| && s'.waiting[j].grant == s.waiting[i].grant
    ensures forall id :: 0 <= id < |s.requesters| && id != except ==> PhaseOk(s', id)
  {
    forall id | 0 <= id < |s.requesters| && id != except
      ensures PhaseOk(s', id)
    {
      assert PhaseOk(s, id);
    }
  }

  lemma {:induction false} ProcessKeeps(s: State, reply: Reply)
    requires Inv(s) && Close(s) && reply.key != 0
    ensures Inv(Apply(s, Process(reply, true)))
  {
    hide KeyOf, Close;
    var s' := Apply(s, Process(reply, true));
    var r := ByKey(s.waiting, reply.key);
    forall i | 0 <= i < |s.waiting|
      ensures ItemOk(s', i)
    {
      assert ItemOk(s, i);
      ReplyFindsIts(s, i);
      LastReplyPrefix(s.log, reply, s.waiting[i].start, |s.log|, KeyOf(s.waiting[i].grant));
    }
    forall id | 0 <= id < |s.requesters|
      ensures PhaseOk(s', id)
    {
      assert PhaseOk(s, id);
      match s.requesters[id]
      case Granted =>
      case Waiting(published, waitCount, run, limit, rounds) =>
        var i :| 0 <= i < |s.waiting| && s.waiting[i].grant == id;
        assert s'.waiting[i].grant == id;
      case Returned(rep, limit, rounds) =>
    }
  }

  lemma {:induction false} RegisterKeeps(s: State, id: nat, timeout: int)
    requires Inv(s) && Enabled(s, Register(id, timeout))
    ensures Inv(Apply(s, Register(id, timeout)))
  {
    var s' := Apply(s, Register(id, timeout));
    forall i | 0 <= i < |s'.waiting|
      ensures ItemOk(s', i)
    {
      assert i < |s.waiting| ==> ItemOk(s, i);
    }
    forall i | 0 <= i < |s.waiting|
      ensures s.waiting[i].grant != id
    {
      assert ItemOk(s, i);
    }
    assert forall i :: 0 <= i < |s.waiting| ==> s'.waiting[i] == s.waiting[i];
    PhasesKept(s, s', id);
    assert s'.waiting[|s.waiting|].grant == id;
    assert PhaseOk(s', id);
  }

  lemma {:induction false} RoundKeeps(s: State, id: nat)
    requires Inv(s) && Enabled(s, Round(id))
    ensures Inv(Apply(s, Round(id)))
  {
    var s', k := Apply(s, Round(id)), ByGrant(s.waiting, id).value;
    forall i | 0 <= i < |s'.waiting|
      ensures ItemOk(s', i)
    {
      assert ItemOk(s, i);
      assert i < k ==> s.waiting[i].grant != s.waiting[k].grant;
      assert k < i ==> s.waiting[k].grant != s.waiting[i].grant;
    }
    assert forall i :: 0 <= i < |s.waiting| ==> s'.waiting[i].grant == s.waiting[i].grant;
    PhasesKept(s, s', id);
    assert PhaseOk(s, id);
    assert s'.waiting[k].grant == id;
    assert PhaseOk(s', id);
  }

  lemma {:induction false} LeaveKeeps(s: State, id: nat)
    requires Inv(s) && Enabled(s, Leave(id))
    ensures Inv(Apply(s, Leave(id)))
  {
    hide KeyOf, LastReply;
    var s', k := Apply(s, Leave(id)), ByGrant(s.waiting, id).value;
    forall i | 0 <= i < |s'.waiting|
      ensures ItemOk(s', i)
    {
      var j := if i < k then i else i + 1;
      assert s'.waiting[i] == s.waiting[j] && ItemOk(s, j);
      assert j < k ==> s.waiting[j].grant != s.waiting[k].grant;
      assert k < j ==> s.waiting[k].grant != s.waiting[j].grant;
    }
    forall i | 0 <= i < |s.waiting| && s.waiting[i].grant != id
      ensures exists j :: 0 <= j < |s'.waiting| && s'.waiting[j].grant == s.waiting[i].grant
    {
      assert s'.waiting[if i < k then i else i - 1] == s.waiting[i];
    }
    PhasesKept(s, s', id);
    assert ItemOk(s, k) && PhaseOk(s, id);
    assert PhaseOk(s', id);
  }

  lemma {:induction false} StepKeeps(s: State, e: Event)
    requires Inv(s) && Close(s) && Enabled(s, e)
    ensures Inv(Apply(s, e))
  {
    hide Inv, Close;
    match e
    case Grant => GrantKeeps(s);
    case Register(id, timeout) => RegisterKeeps(s, id, timeout);
    case Publish(id) => PublishKeeps(s, id);
    case Round(id) => RoundKeeps(s, id);
    case Leave(id) => LeaveKeeps(s, id);
    case Process(reply, isReply) =>
      if isReply && reply.key != 0 {
        ProcessKeeps(s, reply);
      }
  }

  lemma {:induction false} GrantKeeps(s: State)
    requires Inv(s)
    ensures Inv(Apply(s, Grant))
  {
    var s' := Apply(s, Grant);
    forall i | 0 <= i < |s'.waiting| ensures ItemOk(s', i) { assert ItemOk(s, i); }
    PhasesKept(s, s', |s.requesters|);
    assert forall id :: 0 <= id < |s'.requesters| ==> PhaseOk(s', id);
  }

  lemma {:induction false} PublishKeeps(s: State, id: nat)
    requires Inv(s) && Enabled(s, Publish(id))
    ensures Inv(Apply(s, Publish(id)))
  {
    var s' := Apply(s, Publish(id));
    forall i | 0 <= i < |s'.waiting| ensures ItemOk(s', i) { assert ItemOk(s, i); }
    PhasesKept(s, s', id);
    assert PhaseOk(s, id);
    assert PhaseOk(s', id);
  }

  // ---- Whole runs ----

  lemma {:induction false} RunKeeps(es: seq<Event>, states: seq<State>, i: nat)
    requires IsRun(es, states) && i < |states| && forall k :: 0 <= k < i ==> Close(states[k])
    ensures Inv(states[i])
  {
    if i > 0 {
      RunKeeps(es, states, i - 1);
      StepKeeps(states[i - 1], es[i - 1]);
    }
  }

  /** What replies a waiting request has been given: ones with its key, processed since it was
      listed. */
  ghost predicate OwnReplies(s: State)
  {
    forall i :: 0 <= i < |s.waiting| ==>
      && s.waiting[i].start <= |s.log|
      && (s.waiting[i].reply.Some? ==> Processed(s.log, s.waiting[i].start, s.waiting[i].grant, s.waiting[i].reply.value))
  }

  ghost predicate Processed(log: seq<Reply>, start: nat, grant: nat, reply: Reply)
  {
    reply.key == KeyOf(grant) && exists k :: start <= k < |log| && log[k] == reply
  }

  lemma {:induction false} StepKeepsOwn(s: State, e: Event)
    requires OwnReplies(s) && Enabled(s, e)
    ensures OwnReplies(Apply(s, e))
  {
    hide KeyOf;
    var s' := Apply(s, e);
    forall log: seq<Reply>, r: Reply, start: nat, grant: nat, reply: Reply | Processed(log, start, grant, reply)
      ensures Processed(log + [r], start, grant, reply)
    {
      var k :| start <= k < |log| && log[k] == reply;
      assert (log + [r])[k] == reply;
    }
    if e.Process? && e.isReply && e.reply.key != 0 {
      assert s'.log[|s.log|] == e.reply;
    }
  }

  lemma {:induction false} RunKeepsOwn(es: seq<Event>, states: seq<State>, i: nat)
    requires IsRun(es, states) && i < |states|
    ensures OwnReplies(states[i])
  {
    if i > 0 {
      hide OwnReplies, Enabled, Apply;
      RunKeepsOwn(es, states, i - 1);
      StepKeepsOwn(states[i - 1], es[i - 1]);
    }
  }

  // ---- The list, however far apart the keys ----

  /** A listed request waits, and goes on until it has a reply. */
  ghost predicate OnList(s: State, i: nat)
    requires i < |s.waiting|
  {
    var x := s.waiting[i];
    && x.grant < |s.requesters| && s.requesters[x.grant].Waiting?
    && (x.reply.None? ==> s.requesters[x.grant].run)
  }

  ghost predicate AllOnList(s: State)
  {
    && (forall i :: 0 <= i < |s.waiting| ==> OnList(s, i))
    && (forall i, j :: 0 <= i < j < |s.waiting| ==> s.waiting[i].grant != s.waiting[j].grant)
  }

  lemma {:induction false} LeaveKeepsList(s: State, id: nat)
    requires AllOnList(s) && Enabled(s, Leave(id))
    ensures AllOnList(Apply(s, Leave(id)))
  {
    hide KeyOf;
    var s', k := Apply(s, Leave(id)), ByGrant(s.waiting, id).value;
    forall i | 0 <= i < |s'.waiting|
      ensures OnList(s', i) && s'.waiting[i] == s.waiting[if i < k then i else i + 1]
    {
      var j := if i < k then i else i + 1;
      assert s'.waiting[i] == s.waiting[j] && OnList(s, j);
      assert j < k ==> s.waiting[j].grant != s.waiting[k].grant;
      assert k < j ==> s.waiting[k].grant != s.waiting[j].grant;
    }
  }

  lemma {:induction false} StepKeepsList(s: State, e: Event)
    requires AllOnList(s) && Enabled(s, e)
    ensures AllOnList(Apply(s, e))
  {
    hide KeyOf;
    if e.Leave? {
      LeaveKeepsList(s, e.id);
    } else {
      var s' := Apply(s, e);
      forall i | 0 <= i < |s'.waiting|
        ensures OnList(s', i)
        ensures i < |s.waiting| ==> s'.waiting[i].grant == s.waiting[i].grant
      {
        assert i < |s.waiting| ==> OnList(s, i);
      }
      forall i, j | 0 <= i < j < |s'.waiting|
        ensures s'.waiting[i].grant != s'.waiting[j].grant
      {
        assert OnList(s, i);
        assert j < |s.waiting| ==> s.waiting[i].grant != s.waiting[j].grant;
      }
    }
  }

  lemma {:induction false} RunKeepsList(es: seq<Event>, states: seq<State>, i: nat)
    requires IsRun(es, states) && i < |states|
    ensures AllOnList(states[i])
  {
    if i > 0 {
      hide AllOnList, Enabled, Apply;
      RunKeepsList(es, states, i - 1);
      StepKeepsList(states[i - 1], es[i - 1]);
    }
  }

  /** The replies processed so far are those of the events that process one, with a key. */
  function RepliesOf(es: seq<Event>): seq<Reply>
  {
    if es == [] then []
    else
      var e := es[|es| - 1];
      RepliesOf(es[..|es| - 1]) + if e.Process? && e.isReply && e.reply.key != 0 then [e.reply] else []
  }

  lemma {:induction false} LogIsReplies(es: seq<Event>, states: seq<State>, i: nat)
    requires IsRun(es, states) && i < |states|
    ensures states[i].log == RepliesOf(es[..i])
  {
    hide KeyOf;
    if i > 0 {
      LogIsReplies(es, states, i - 1);
      assert es[..i][..i - 1] == es[..i - 1];
      assert states[i] == Apply(states[i - 1], es[i - 1]);
    }
  }

  // ---- From its registration on ----

  /** A requester listed when `from` replies had been processed: it is on the list until it
      returns. */
  ghost predicate Since(s: State, id: nat, from: nat)
  {
    && id < |s.requesters| && !s.requesters[id].Granted?
    && (s.requesters[id].Waiting? ==> ByGrant(s.waiting, id).Some?)
    && (forall i :: 0 <= i < |s.waiting| && s.waiting[i].grant == id ==> s.waiting[i].start == from)
  }

  lemma {:induction false} LeaveKeepsSince(s: State, other: nat, id: nat, from: nat)
    requires Since(s, id, from) && Enabled(s, Leave(other))
    ensures Since(Apply(s, Leave(other)), id, from)
  {
    hide KeyOf;
    var s', k := Apply(s, Leave(other)), ByGrant(s.waiting, other).value;
    if other != id && s.requesters[id].Waiting? {
      var j := ByGrant(s.waiting, id).value;
      assert s'.waiting[if j < k then j else j - 1] == s.waiting[j];
    }
    forall i | 0 <= i < |s'.waiting|
      ensures s'.waiting[i] == s.waiting[if i < k then i else i + 1]
    {
    }
  }

  lemma {:induction false} StepKeepsSince(s: State, e: Event, id: nat, from: nat)
    requires Since(s, id, from) && Enabled(s, e)
    ensures Since(Apply(s, e), id, from)
    ensures s.requesters[id].Returned? ==> Apply(s, e).requesters[id] == s.requesters[id]
  {
    hide KeyOf;
    if e.Leave? {
      LeaveKeepsSince(s, e.id, id, from);
    } else if s.requesters[id].Waiting? {
      var s', j := Apply(s, e), ByGrant(s.waiting, id).value;
      assert s'.waiting[j].grant == id;
    }
  }

  lemma {:induction false} RegisterLists(s: State, id: nat, timeout: int)
    requires AllOnList(s) && Enabled(s, Register(id, timeout))
    ensures var s' := Apply(s, Register(id, timeout));
            && Since(s', id, |s.log|) && s'.log == s.log
            && (forall i :: 0 <= i < |s'.waiting| && s'.waiting[i].grant == id ==> s'.waiting[i] == Item(id, None, |s.log|))
  {
    var s' := Apply(s, Register(id, timeout));
    assert s'.waiting[|s.waiting|].grant == id;
    assert forall i :: 0 <= i < |s.waiting| ==> OnList(s, i) && s.waiting[i].grant != id;
  }

  lemma {:induction false} RunSince(es: seq<Event>, states: seq<State>, r: nat, i: nat, id: nat)
    requires IsRun(es, states) && r < i < |states| && es[r].Register? && es[r].id == id
    ensures Since(states[i], id, |states[r].log|) && |states[r].log| <= |states[i].log|
    decreases i
  {
    hide Since, AllOnList, Enabled, Apply;
    if i == r + 1 {
      RunKeepsList(es, states, r);
      RegisterLists(states[r], id, es[r].timeout);
    } else {
      RunSince(es, states, r, i - 1, id);
      StepKeepsSince(states[i - 1], es[i - 1], id, |states[r].log|);
    }
    if i > r + 1 {
      LogGrows(states[i - 1], es[i - 1]);
    }
  }

  lemma {:induction false} LogGrows(s: State, e: Event)
    requires Enabled(s, e)
    ensures s.log <= Apply(s, e).log
  {
    hide KeyOf;
  }

  /** A registered requester that has not returned can publish, wait once more or leave. */
  lemma {:induction false} NeverStuck(es: seq<Event>, states: seq<State>, r: nat, i: nat, id: nat)
    requires IsRun(es, states) && r < i < |states| && es[r].Register? && es[r].id == id
    ensures id < |states[i].requesters| && !states[i].requesters[id].Granted?
    ensures states[i].requesters[id].Waiting? ==>
              Enabled(states[i], Publish(id)) || Enabled(states[i], Round(id)) || Enabled(states[i], Leave(id))
  {
    hide Apply;
    RunSince(es, states, r, i, id);
  }

  /** What a requester has returned with is settled when it leaves. */
  lemma {:induction false} ReturnedStays(es: seq<Event>, states: seq<State>, l: nat, i: nat, id: nat)
    requires IsRun(es, states) && l < i < |states| && es[l] == Leave(id)
    ensures id < |states[i].requesters| && states[i].requesters[id].Returned?
    ensures id < |states[l + 1].requesters| && states[i].requesters[id] == states[l + 1].requesters[id]
    decreases i
  {
    hide KeyOf, WaitCount;
    if i == l + 1 {
      assert states[i] == Apply(states[l], es[l]);
    } else {
      ReturnedStays(es, states, l, i - 1, id);
      assert Enabled(states[i - 1], es[i - 1]) && states[i] == Apply(states[i - 1], es[i - 1]);
    }
  }

  /** In every run, however far apart the keys: a requester only returns a reply with its own
      key, processed while it was on the list. */
  lemma {:induction false} OnlyOwnReplies(es: seq<Event>, states: seq<State>, r: nat, l: nat, id: nat)
    requires IsRun(es, states) && r < l < |es| && es[r].Register? && es[r].id == id && es[l] == Leave(id)
    ensures id < |states[l + 1].requesters| && states[l + 1].requesters[id].Returned?
    ensures var reply := states[l + 1].requesters[id].reply;
            reply.Some? ==>
              && reply.value.key == KeyOf(id)
              && exists k :: |states[r].log| <= k < |states[l].log| && states[l].log[k] == reply.value
  {
    hide KeyOf;
    RunKeepsOwn(es, states, l);
    RunSince(es, states, r, l, id);
    assert Enabled(states[l], es[l]) && states[l + 1] == Apply(states[l], es[l]);
  }

  // ---- Rounds ----

  /** How often `id` waited in the events from `r` to `i`. */
  function RoundsOf(es: seq<Event>, r: nat, i: nat, id: nat): nat
    requires r <= i <= |es|
    decreases i
  {
    if r == i then 0 else RoundsOf(es, r, i - 1, id) + if es[i - 1] == Round(id) then 1 else 0
  }

  /** The rounds are four a second, less one, while that product fits an `int`; a negative
      timeout wraps around. */
  lemma {:induction false} RoundsFor(timeout: int)
    requires -(INT_LIMIT as int) <= timeout * STEPS < INT_LIMIT
    ensures Less(WaitCount(timeout)) ==
              (if timeout == 0 then ONE_DAY * STEPS else if timeout > 0 then timeout * STEPS else UINT_LIMIT + timeout * STEPS) - 1
  {
  }

  /** Where a registered request is in its rounds, `rounds` of which have begun. */
  ghost predicate InRounds(p: Phase, limit: nat, rounds: nat)
  {
    match p
    case Granted => false
    case Waiting(published, waitCount, run, l, n) =>
      && l == limit < UINT_LIMIT && n == rounds <= Less(limit)
      && waitCount == if rounds <= limit then limit - rounds else UINT_LIMIT + limit - rounds
    case Returned(reply, l, n) => l == limit && n == rounds <= Less(limit)
  }

  lemma {:induction false} StepKeepsRounds(s: State, e: Event, id: nat, limit: nat, rounds: nat)
    requires Enabled(s, e) && id < |s.requesters| && InRounds(s.requesters[id], limit, rounds)
    ensures id < |Apply(s, e).requesters|
    ensures InRounds(Apply(s, e).requesters[id], limit, if e == Round(id) then rounds + 1 else rounds)
  {
    hide KeyOf;
  }

  lemma {:induction false} RunInRounds(es: seq<Event>, states: seq<State>, r: nat, i: nat, id: nat, timeout: int)
    requires IsRun(es, states) && r < i < |states| && es[r] == Register(id, timeout)
    ensures id < |states[i].requesters|
    ensures InRounds(states[i].requesters[id], WaitCount(timeout), RoundsOf(es, r, i, id))
    decreases i
  {
    if i == r + 1 {
      assert states[i] == Apply(states[r], es[r]);
      assert RoundsOf(es, r, i, id) == 0;
    } else {
      RunInRounds(es, states, r, i - 1, id, timeout);
      hide InRounds, Apply, Enabled, WaitCount;
      StepKeepsRounds(states[i - 1], es[i - 1], id, WaitCount(timeout), RoundsOf(es, r, i - 1, id));
    }
  }

  /** In every run: a request registered with a timeout waits no more than four times a second
      of it, or of a day if it is zero, less one. */
  lemma {:induction false} ReturnsInTime(es: seq<Event>, states: seq<State>, r: nat, i: nat, id: nat, timeout: nat)
    requires IsRun(es, states) && r < i < |states| && es[r] == Register(id, timeout) && timeout * STEPS < INT_LIMIT
    ensures RoundsOf(es, r, i, id) <= (if timeout == 0 then ONE_DAY else timeout) * STEPS - 1
  {
    hide Apply;
    RunInRounds(es, states, r, i, id, timeout);
    RoundsFor(timeout);
  }

  /** And exactly as often if it returns without a reply: it does not give up early. */
  lemma {:induction false} WaitsItsTime(es: seq<Event>, states: seq<State>, r: nat, l: nat, id: nat, timeout: nat)
    requires IsRun(es, states) && r < l < |es| && es[r] == Register(id, timeout) && timeout * STEPS < INT_LIMIT
    requires es[l] == Leave(id) && id < |states[l + 1].requesters| && states[l + 1].requesters[id].Returned?
    requires states[l + 1].requesters[id].reply == None
    ensures RoundsOf(es, r, l, id) == (if timeout == 0 then ONE_DAY else timeout) * STEPS - 1
  {
    hide KeyOf, WaitCount;
    RunInRounds(es, states, r, l, id, timeout);
    RoundsFor(timeout);
    RunKeepsList(es, states, l);
    assert Enabled(states[l], es[l]) && states[l + 1] == Apply(states[l], es[l]);
    assert OnList(states[l], ByGrant(states[l].waiting, id).value);
  }

  /** A requester whose reply is stored has waited `rounds` times since. */
  ghost predicate Answered(s: State, id: nat, rounds: nat)
  {
    && id < |s.requesters| && !s.requesters[id].Granted?
    && (forall i :: 0 <= i < |s.waiting| && s.waiting[i].grant == id ==> s.waiting[i].reply.Some?)
    && (rounds == 0 || (rounds == 1 && (s.requesters[id].Waiting? ==> !s.requesters[id].run)))
  }

  lemma {:induction false} StepAnswered(s: State, e: Event, id: nat, rounds: nat)
    requires Answered(s, id, rounds) && Enabled(s, e)
    ensures Answered(Apply(s, e), id, if e == Round(id) then rounds + 1 else rounds)
  {
    hide KeyOf, WaitCount;
    var s' := Apply(s, e);
    if e.Leave? {
      var k := ByGrant(s.waiting, e.id).value;
      assert forall i :: 0 <= i < |s'.waiting| ==> s'.waiting[i] == s.waiting[if i < k then i else i + 1];
    }
  }

  /** In every run: once its reply is stored a requester waits at most once more. */
  lemma {:induction false} LeavesSoonAfterReply(es: seq<Event>, states: seq<State>, p: nat, i: nat, k: nat, id: nat)
    requires IsRun(es, states) && p <= i < |states|
    requires k < |states[p].waiting| && states[p].waiting[k].grant == id && states[p].waiting[k].reply.Some?
    ensures RoundsOf(es, p, i, id) <= 1
  {
    RunKeepsList(es, states, p);
    assert OnList(states[p], k);
    assert Answered(states[p], id, 0);
    RunAnswered(es, states, p, i, id);
  }

  lemma {:induction false} RunAnswered(es: seq<Event>, states: seq<State>, p: nat, i: nat, id: nat)
    requires IsRun(es, states) && p <= i < |states| && Answered(states[p], id, 0)
    ensures Answered(states[i], id, RoundsOf(es, p, i, id))
    decreases i
  {
    hide Enabled, Apply, Answered;
    if p < i {
      RunAnswered(es, states, p, i - 1, id);
      StepAnswered(states[i - 1], es[i - 1], id, RoundsOf(es, p, i - 1, id));
    }
  }

  // ---- Returning with a reply ----

  /** No other waiting request is a multiple of 2^32 - 1 grants away from `id`. */
  ghost predicate Alone(s: State, id: nat)
  {
    forall i :: 0 <= i < |s.waiting| && s.waiting[i].grant != id ==> (s.waiting[i].grant - id) % KEYS != 0
  }

  /** What `id` has of a reply is the last one with its key since it was listed. */
  ghost predicate Told(s: State, id: nat)
  {
    forall i :: 0 <= i < |s.waiting| && s.waiting[i].grant == id ==> ItemTold(s, i)
  }

  ghost predicate ItemTold(s: State, i: nat)
    requires i < |s.waiting|
  {
    var x := s.waiting[i];
    x.start <= |s.log| && x.reply == LastReply(s.log, x.start, |s.log|, KeyOf(x.grant))
  }

  lemma {:induction false} ProcessTells(s: State, reply: Reply, id: nat)
    requires Alone(s, id) && Told(s, id) && AllOnList(s) && reply.key != 0
    ensures Told(Apply(s, Process(reply, true)), id)
  {
    hide KeyOf, OnList;
    var s' := Apply(s, Process(reply, true));
    forall i | 0 <= i < |s.waiting| && s.waiting[i].grant == id
      ensures ItemTold(s', i)
    {
      assert ItemTold(s, i);
      AloneIsFound(s, i);
      LastReplyPrefix(s.log, reply, s.waiting[i].start, |s.log|, KeyOf(id));
    }
  }

  lemma {:induction false} AloneIsFound(s: State, i: nat)
    requires i < |s.waiting| && Alone(s, s.waiting[i].grant) && AllOnList(s)
    ensures ByKey(s.waiting, KeyOf(s.waiting[i].grant)) == Some(i)
  {
    hide KeyOf, OnList;
    forall j | 0 <= j < |s.waiting| && j != i
      ensures KeyOf(s.waiting[j].grant) != KeyOf(s.waiting[i].grant)
    {
      assert i < j ==> s.waiting[i].grant != s.waiting[j].grant;
      assert j < i ==> s.waiting[j].grant != s.waiting[i].grant;
      KeysDistinct(s.waiting[j].grant, s.waiting[i].grant);
    }
  }

  lemma {:induction false} StepTells(s: State, e: Event, id: nat)
    requires Alone(s, id) && Told(s, id) && AllOnList(s) && Enabled(s, e)
    ensures Told(Apply(s, e), id)
  {
    hide KeyOf, LastReply;
    var s' := Apply(s, e);
    if e.Process? && e.isReply && e.reply.key != 0 {
      ProcessTells(s, e.reply, id);
    } else {
      forall i | 0 <= i < |s'.waiting| && s'.waiting[i].grant == id
        ensures ItemTold(s', i)
      {
        var j := if e.Leave? && i >= ByGrant(s.waiting, e.id).value then i + 1 else i;
        if j < |s.waiting| {
          assert s'.waiting[i].grant == s.waiting[j].grant && ItemTold(s, j);
        } else {
          NoReplyYet(s'.log, |s.log|, KeyOf(id));
        }
      }
    }
  }

  lemma NoReplyYet(log: seq<Reply>, end: nat, key: nat)
    requires end <= |log|
    ensures LastReply(log, end, end, key) == None
  {
  }

  lemma {:induction false} RunTells(es: seq<Event>, states: seq<State>, r: nat, i: nat, id: nat)
    requires IsRun(es, states) && r < i < |states| && es[r].Register? && es[r].id == id
    requires forall k :: r < k < i ==> Alone(states[k], id)
    ensures Told(states[i], id)
    decreases i
  {
    hide AllOnList, Enabled, Apply, Alone, KeyOf;
    if i == r + 1 {
      RunKeepsList(es, states, r);
      RegisterLists(states[r], id, es[r].timeout);
      NoReplyYet(states[i].log, |states[r].log|, KeyOf(id));
    } else {
      RunTells(es, states, r, i - 1, id);
      RunKeepsList(es, states, i - 1);
      StepTells(states[i - 1], es[i - 1], id);
    }
  }

  lemma {:induction false} LastIsLast(log: seq<Reply>, start: nat, end: nat, key: nat)
    requires start <= end <= |log| && LastReply(log, start, end, key).Some?
    ensures exists k :: start <= k < end && log[k] == LastReply(log, start, end, key).value && NoneAfter(log, k, end, key)
    decreases end
  {
    if log[end - 1].key == key {
      assert NoneAfter(log, end - 1, end, key);
    } else {
      LastIsLast(log, start, end - 1, key);
      var k :| start <= k < end - 1 && log[k] == LastReply(log, start, end - 1, key).value && NoneAfter(log, k, end - 1, key);
      assert NoneAfter(log, k, end, key);
    }
  }

  ghost predicate NoneAfter(log: seq<Reply>, k: nat, end: nat, key: nat)
    requires end <= |log|
  {
    forall m :: k < m < end ==> log[m].key != key
  }

  /** In every run in which no other request with its key waits while it does, a requester that
      leaves returns a reply exactly when one with its key was processed since it registered,
      and then the last of those. */
  lemma {:induction false} ReturnsItsReply(es: seq<Event>, states: seq<State>, r: nat, l: nat, id: nat)
    requires IsRun(es, states) && r < l < |es| && es[r].Register? && es[r].id == id && es[l] == Leave(id)
    requires forall k :: r < k < l ==> Alone(states[k], id)
    ensures |states[r].log| <= |states[l].log| && id < |states[l + 1].requesters| && states[l + 1].requesters[id].Returned?
    ensures var reply, log := states[l + 1].requesters[id].reply, states[l].log;
            && (reply.Some? <==> exists k :: |states[r].log| <= k < |log| && log[k].key == KeyOf(id))
            && (reply.Some? ==> exists k :: |states[r].log| <= k < |log| && log[k] == reply.value && NoneAfter(log, k, |log|, KeyOf(id)))
  {
    hide KeyOf, Alone;
    RunTells(es, states, r, l, id);
    RunSince(es, states, r, l, id);
    assert Enabled(states[l], es[l]) && states[l + 1] == Apply(states[l], es[l]);
    var i := ByGrant(states[l].waiting, id).value;
    assert ItemTold(states[l], i);
    if states[l].waiting[i].reply.Some? {
      LastIsLast(states[l].log, |states[r].log|, |states[l].log|, KeyOf(id));
    }
  }

  // ---- Two requests with one key ----

  lemma {:induction false} Grants(n: nat) returns (es: seq<Event>, states: seq<State>)
    ensures IsRun(es, states) && |es| == n
    ensures states[n] == State(seq(n, i => Granted), [], [])
  {
    if n == 0 {
      es, states := [], [State([], [], [])];
    } else {
      es, states := Grants(n - 1);
      es, states := GoOn(es, states, Grant);
      assert seq(n - 1, i => Granted) + [Granted] == seq(n, i => Granted);
    }
  }

  /** A run may go on with any step that is enabled. */
  lemma {:induction false} GoOn(es: seq<Event>, states: seq<State>, e: Event) returns (es': seq<Event>, states': seq<State>)
    requires IsRun(es, states) && Enabled(states[|es|], e)
    ensures IsRun(es', states') && es' == es + [e] && |states'| == |states| + 1
    ensures states'[|es'|] == Apply(states[|es|], e) && states'[..|states|] == states
  {
    hide Enabled, Apply;
    es', states' := es + [e], states + [Apply(states[|es|], e)];
    forall i | 0 <= i < |es'|
      ensures Enabled(states'[i], es'[i]) && states'[i + 1] == Apply(states'[i], es'[i])
    {
      assert i < |es| ==> states'[i] == states[i] && states'[i + 1] == states[i + 1] && es'[i] == es[i];
    }
  }

  /** The reply to the second of two requests with one key goes to the first. */
  lemma {:induction false} ReplyGoesToFirst(m: nat, n: nat, a: nat, b: nat)
    requires m != n && (m - n) % KEYS == 0
    ensures ByKey([Item(m, None, a), Item(n, None, b)], KeyOf(n)) == Some(0)
  {
    KeysDistinct(m, n);
  }

  /** Such a run: 2^32 grants, the first and the last requester on the list with a second to
      wait, and a reply with their key. The last, registered by event `r`, returns without a
      reply although it was processed while it waited. */
  lemma {:induction false} SharedKeyLosesReply(reply: Reply) returns (es: seq<Event>, states: seq<State>, r: nat)
    requires reply.key == KeyOf(KEYS)
    ensures IsRun(es, states) && r < |es| - 1 && es[r] == Register(KEYS, 1) && es[|es| - 1] == Leave(KEYS)
    ensures |states[|es|].requesters| == KEYS + 1 && states[|es|].requesters[KEYS].Returned?
    ensures states[|es|].requesters[KEYS].reply == None
    ensures var start, log := |states[r].log|, states[|es| - 1].log;
            exists k :: start <= k < |log| && log[k].key == KeyOf(KEYS)
  {
    hide KeyOf;
    es, states := Grants(KEYS + 1);
    es, states, r := TwoWait(es, states, 0, KEYS);
    es, states := ReplyLost(es, states, 0, KEYS, reply);
    assert states[|es| - 1].log[0].key == KeyOf(KEYS);
  }

  /** Two requesters are listed with a second to wait. */
  lemma {:induction false} TwoWait(es: seq<Event>, states: seq<State>, m: nat, n: nat)
    returns (es': seq<Event>, states': seq<State>, r: nat)
    requires IsRun(es, states) && m < n < |states[|es|].requesters| && states[|es|].waiting == [] && states[|es|].log == []
    requires states[|es|].requesters[m].Granted? && states[|es|].requesters[n].Granted?
    ensures IsRun(es', states') && r < |es'| && es'[r] == Register(n, 1) && states'[r].log == []
    ensures var s := states'[|es'|];
            && s.waiting == [Item(m, None, 0), Item(n, None, 0)] && s.log == []
            && |s.requesters| == |states[|es|].requesters| && s.requesters[n] == Waiting(true, 4, true, 4, 0)
  {
    hide KeyOf;
    es', states' := GoOn(es, states, Register(m, 1));
    r := |es'|;
    es', states' := GoOn(es', states', Register(n, 1));
    es', states' := GoOn(es', states', Publish(n));
  }

  lemma {:induction false} ReplyLost(es: seq<Event>, states: seq<State>, m: nat, n: nat, reply: Reply)
    returns (es': seq<Event>, states': seq<State>)
    requires IsRun(es, states) && m < n < |states[|es|].requesters| && (m - n) % KEYS == 0 && reply.key == KeyOf(n)
    requires states[|es|].waiting == [Item(m, None, 0), Item(n, None, 0)] && states[|es|].log == []
    requires states[|es|].requesters[n] == Waiting(true, 4, true, 4, 0)
    ensures IsRun(es', states') && |states'[|es'|].requesters| == |states[|es|].requesters|
    ensures |es'| > |es| && es'[..|es|] == es && states'[..|es| + 1] == states && es'[|es'| - 1] == Leave(n)
    ensures states'[|es'|].requesters[n] == Returned(None, 4, 3) && states'[|es'| - 1].log == [reply]
  {
    hide KeyOf;
    ReplyGoesToFirst(m, n, 0, 0);
    KeysDistinct(n, n);
    es', states' := GoOn(es, states, Process(reply, true));
    var first := Item(m, Some(reply), 0);
    assert states'[|es'|].waiting == [first, Item(n, None, 0)];
    var k := 0;
    while k < 3
      invariant k <= 3 && IsRun(es', states') && |states'[|es'|].requesters| == |states[|es|].requesters|
      invariant |es'| > |es| && es'[..|es|] == es && states'[..|es| + 1] == states
      invariant states'[|es'|].waiting == [first, Item(n, None, 0)] && states'[|es'|].log == [reply]
      invariant states'[|es'|].requesters[n] == Waiting(true, 4 - k, true, 4, k)
    {
      SecondIs(states'[|es'|].waiting, n);
      es', states' := GoOn(es', states', Round(n));
      k := k + 1;
    }
    SecondIs(states'[|es'|].waiting, n);
    es', states' := GoOn(es', states', Leave(n));
  }

  lemma {:induction false} SecondIs(waiting: seq<Item>, n: nat)
    requires |waiting| == 2 && waiting[0].grant != n && waiting[1].grant == n
    ensures ByGrant(waiting, n) == Some(1)
  {
  }
}

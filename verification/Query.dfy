/** lib/pfquery/pfquery.c: the wait list, and the key counter requests draw on. Each method is
    what one thread does under the lock. */
module Queries {
  import opened Arithmetic
  import opened QueryState
  import opened Options
  import opened Sequences

  /** The listed request of `id` has no reply stored. */
  ghost predicate HasNoReply(waiting: seq<Item>, id: nat)
  {
    forall i :: 0 <= i < |waiting| && waiting[i].grant == id ==> waiting[i].reply.None?
  }

  /** The `i`th request, the first with the reply's key, has it now, and the rest are as before. */
  ghost predicate GivenTo(waiting: seq<Item>, waiting': seq<Item>, i: nat, reply: Reply)
  {
    && i < |waiting| && KeyOf(waiting[i].grant) == reply.key && waiting' == waiting[i := waiting[i].(reply := Some(reply))]
    && (forall j :: 0 <= j < i ==> KeyOf(waiting[j].grant) != reply.key)
  }

  lemma ItemsOk(s: State, i: nat)
    requires Inv(s) && i < |s.waiting|
    ensures ItemOk(s, i)
  {
  }

  class QueryTable {
    var uniqueKey: nat
    var waiting: seq<Item>
    /** Where each requester's own thread is, by grant. */
    var requesters: seq<Phase>
    /** History: the replies processed. */
    var log: seq<Reply>

    ghost function View(): State
      reads this
    {
      State(requesters, waiting, log)
    }

    ghost predicate Valid()
      reads this
    {
      Inv(View()) && uniqueKey == KeyOf(|requesters|)
    }

    constructor ()
      ensures Valid() && Init(View())
    {
      uniqueKey, waiting, requesters, log := FIRST_KEY, [], [], [];
    }

    /** `vmq_getkey` */
    method GetKey() returns (key: nat)
      requires Valid()
      modifies this`uniqueKey, this`requesters
      ensures Valid() && View() == Apply(old(View()), Grant) && key == KeyOf(|old(requesters)|)
      ensures requesters == old(requesters) + [Granted]
    {
      hide Inv;
      GrantKeeps(View());
      key := uniqueKey;
      uniqueKey := (uniqueKey + 1) % UINT_LIMIT;
      if uniqueKey == 0 {
        uniqueKey := uniqueKey + 1;
      }
      requesters := requesters + [Granted];
    }

    /** Lists the request, before it is published. */
    method Wait(id: nat, timeout: int)
      requires Valid() && id < |requesters| && requesters[id].Granted?
      modifies this`requesters, this`waiting
      ensures Valid() && View() == Apply(old(View()), Register(id, timeout))
      ensures waiting == old(waiting) + [Item(id, None, |log|)] && requesters[id].Waiting? && !requesters[id].published
      ensures timeout > 0 && timeout * STEPS < INT_LIMIT ==> requesters[id].waitCount == timeout * STEPS
    {
      hide Inv;
      RegisterKeeps(View(), id, timeout);
      var waitCount := (if timeout == 0 then ONE_DAY else timeout) * STEPS % UINT_LIMIT;
      requesters := requesters[id := Waiting(false, waitCount, true, waitCount, 0)];
      waiting := waiting + [Item(id, None, |log|)];
    }

    method PutRequest(id: nat)
      requires Valid() && id < |requesters| && requesters[id].Waiting? && !requesters[id].published
      modifies this`requesters
      ensures Valid() && View() == Apply(old(View()), Publish(id))
      ensures requesters == old(requesters)[id := old(requesters)[id].(published := true)]
    {
      hide Inv;
      PublishKeeps(View(), id);
      requesters := requesters[id := requesters[id].(published := true)];
    }

    /** The item a requester holds a pointer to. */
    method ItemOf(id: nat) returns (i: nat)
      requires ByGrant(waiting, id).Some?
      ensures Some(i) == ByGrant(waiting, id)
    {
      i := 0;
      while waiting[i].grant != id
        invariant i < |waiting| && ByGrant(waiting, id) == FirstFrom(waiting, (x: Item) => x.grant == id, i)
        decreases |waiting| - i
      {
        i := i + 1;
      }
    }

    /** One turn of the wait loop: counts down and, unless that ends it, waits and looks for
        the reply. */
    method WaitRound(id: nat) returns (waited: bool)
      requires Valid() && id < |requesters| && requesters[id].Waiting? && requesters[id].published && requesters[id].run
      requires ByGrant(waiting, id).Some?
      modifies this`requesters
      ensures Valid() && (waited <==> Less(old(requesters[id]).waitCount) != 0)
      ensures waited ==> |requesters| == |old(requesters)| && requesters[id].Waiting? && (requesters[id].run <==> HasNoReply(waiting, id))
      ensures if waited then View() == Apply(old(View()), Round(id)) else View() == old(View()) && Enabled(View(), QueryState.Leave(id))
    {
      hide Inv;
      var p := requesters[id];
      waited := Less(p.waitCount) != 0;
      if waited {
        RoundKeeps(View(), id);
        var i := ItemOf(id);
        requesters := requesters[id := p.(waitCount := Less(p.waitCount), run := waiting[i].reply.None?, rounds := p.rounds + 1)];
      }
    }

    /** Takes the request off the list and returns what reply it has. */
    method Leave(id: nat) returns (reply: Option<Reply>)
      requires Valid() && Enabled(View(), QueryState.Leave(id))
      modifies this`requesters, this`waiting
      ensures Valid() && View() == Apply(old(View()), QueryState.Leave(id)) && reply == requesters[id].reply
      ensures exists i :: 0 <= i < |old(waiting)| && old(waiting)[i].grant == id && old(waiting)[i].reply == reply
                          && waiting == old(waiting)[..i] + old(waiting)[i + 1..]
                          && old(waiting)[i].start <= |log| && reply == LastReply(log, old(waiting)[i].start, |log|, KeyOf(id))
    {
      hide Inv;
      LeaveKeeps(View(), id);
      var i := ItemOf(id);
      assert ItemOk(View(), i) by { ItemsOk(View(), i); }
      reply := waiting[i].reply;
      requesters := requesters[id := Returned(reply, requesters[id].limit, requesters[id].rounds)];
      waiting := waiting[..i] + waiting[i + 1..];
    }

    /** `PFQueryReplyProcess` with `setReplyQueryItem`: gives the reply to the first request on
        the list with its key, which while keys are distinct is the one it is for. */
    method ReplyProcess(reply: Reply, isReply: bool) returns (found: bool)
      requires Valid()
      modifies this`waiting, this`log
      ensures View() == Apply(old(View()), Process(reply, isReply)) && (old(Close(View())) ==> Valid())
      ensures found <==> isReply && reply.key != 0 && exists i :: 0 <= i < |old(waiting)| && KeyOf(old(waiting)[i].grant) == reply.key
      ensures !found ==> waiting == old(waiting)
      ensures found ==> exists i :: GivenTo(old(waiting), waiting, i, reply)
      ensures log == if isReply && reply.key != 0 then old(log) + [reply] else old(log)
    {
      hide Inv, Close;
      if Close(View()) {
        StepKeeps(View(), Process(reply, isReply));
      }
      found := false;
      if isReply && reply.key != 0 {
        log := log + [reply];
        var i := 0;
        while i < |waiting|
          invariant i <= |waiting| && waiting == old(waiting) && log == old(log) + [reply]
          invariant ByKey(waiting, reply.key) == FirstFrom(waiting, (x: Item) => KeyOf(x.grant) == reply.key, i)
        {
          if KeyOf(waiting[i].grant) == reply.key {
            waiting := waiting[i := Stored(waiting[i], reply)];
            assert GivenTo(old(waiting), waiting, i, reply);
            return true;
          }
          i := i + 1;
        }
      }
    }
  }
}

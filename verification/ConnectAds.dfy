// ConnectAdsStub: the provider connection with its deduplicating message queue, as one
// thread uses it.

module ConnectAds {
  import opened Sequences

  datatype ConnectionState = DISCONNECTED | CONNECTING | CONNECTED

  // Pushing a code unless it is queued already.
  function Enqueue(queue: seq<int>, code: int): seq<int> {
    if code in queue then queue else queue + [code]
  }

  function EnqueueAll(queue: seq<int>, codes: seq<int>): seq<int>
    decreases |codes|
  {
    if codes == [] then queue else EnqueueAll(Enqueue(queue, codes[0]), codes[1..])
  }

  predicate NoDuplicates(queue: seq<int>) {
    forall i, j :: 0 <= i < j < |queue| ==> queue[i] != queue[j]
  }

  function Elements(queue: seq<int>): set<int> {
    if queue == [] then {} else Elements(queue[..|queue| - 1]) + {queue[|queue| - 1]}
  }

  lemma {:induction false} ElementsMember(queue: seq<int>, code: int)
    ensures code in Elements(queue) <==> code in queue
  {
    if queue != [] {
      var n := |queue| - 1;
      assert queue == queue[..n] + [queue[n]];
      ElementsMember(queue[..n], code);
    }
  }

  // Queueing a code keeps the queue free of duplicates and adds it to the hash set.
  lemma EnqueueConsistent(queue: seq<int>, code: int)
    requires NoDuplicates(queue)
    ensures NoDuplicates(Enqueue(queue, code)) && Elements(Enqueue(queue, code)) == Elements(queue) + {code}
    ensures queue <= Enqueue(queue, code) && code in Enqueue(queue, code)
    ensures |Enqueue(queue, code)| == |queue| + if code in queue then 0 else 1
    ensures code in Elements(queue) <==> code in queue
  {
    ElementsMember(queue, code);
    assert (queue + [code])[..|queue|] == queue;
  }

  // Codes that are new to the queue go to its end.
  lemma {:induction false} EnqueueAllFresh(queue: seq<int>, codes: seq<int>)
    requires NoDuplicates(codes)
    requires forall code :: code in codes ==> code !in queue
    ensures EnqueueAll(queue, codes) == queue + codes
    decreases |codes|
  {
    if codes == [] {
      assert queue + codes == queue;
    } else {
      EnqueueAllFresh(queue + [codes[0]], codes[1..]);
      assert queue + codes == (queue + [codes[0]]) + codes[1..];
    }
  }

  // The codes for which the token, the callback or the parcel fails.
  function Fails(failing: set<int>): int -> bool {
    code => code in failing
  }

  function Succeeds(failing: set<int>): int -> bool {
    code => code !in failing
  }

  lemma NothingToDrain(failing: set<int>)
    ensures Select([], Succeeds(failing)) == [] && Select([], Fails(failing)) == []
    ensures NoDuplicates([]) && Elements([]) == {}
  {
  }

  // When every queued code fails, the drain leaves the queue as it was.
  lemma AllFail(all: seq<int>, failing: set<int>)
    requires Elements(all) <= failing
    ensures Select(all, Fails(failing)) == all && Select(all, Succeeds(failing)) == []
  {
    forall code | code in all ensures code in failing {
      ElementsMember(all, code);
    }
    SelectAll(all, Fails(failing));
    SelectNothing(all, Succeeds(failing));
  }

  // A drained code is not queued again yet, so sending or queueing it extends one of
  // the two selections.
  lemma DrainStep(all: seq<int>, done: seq<int>, code: int, rest: seq<int>, failing: set<int>)
    requires NoDuplicates(all) && all == done + [code] + rest
    ensures Enqueue(Select(done, Fails(failing)), code) == Select(done, Fails(failing)) + [code]
    ensures Select(done + [code], Succeeds(failing))
         == Select(done, Succeeds(failing)) + if code in failing then [] else [code]
    ensures Select(done + [code], Fails(failing))
         == Select(done, Fails(failing)) + if code in failing then [code] else []
  {
    assert (done + [code])[..|done|] == done;
    SelectMember(done, Fails(failing), code);
    assert all[|done|] == code && forall i :: 0 <= i < |done| ==> all[i] == done[i];
  }

  class ConnectAdsStub {
    var proxy: bool  // whether proxy_ is not null
    var connectionState: ConnectionState
    var messageQueue: seq<int>
    var messageSet: set<int>
    // Every SendRequest, in order.
    var sent: seq<int>

    ghost predicate Valid()
      reads this
    {
      NoDuplicates(messageQueue) && messageSet == Elements(messageQueue)
    }

    predicate CanSend()
      reads this
    {
      connectionState == CONNECTED && proxy
    }

    constructor ()
      ensures Valid() && messageQueue == [] && sent == [] && connectionState == DISCONNECTED && !proxy
    {
      proxy, connectionState := false, DISCONNECTED;
      messageQueue, messageSet, sent := [], {}, [];
    }

    method AddMessageToQueue(code: int)
      requires Valid()
      modifies this`messageQueue, this`messageSet
      ensures Valid() && messageQueue == Enqueue(old(messageQueue), code)
      ensures messageQueue == old(messageQueue) + if code in old(messageQueue) then [] else [code]
    {
      EnqueueConsistent(messageQueue, code);
      if code !in messageSet {
        messageQueue := messageQueue + [code];
        messageSet := messageSet + {code};
      }
    }

    method SendMessage(code: int, failing: set<int>)
      requires Valid()
      modifies this`messageQueue, this`messageSet, this`sent
      ensures Valid()
      ensures sent == old(sent) + if CanSend() && code !in failing then [code] else []
      ensures messageQueue
           == if CanSend() && code !in failing then old(messageQueue) else Enqueue(old(messageQueue), code)
    {
      if !CanSend() {
        AddMessageToQueue(code);
        return;
      }
      if code in failing {
        AddMessageToQueue(code);
        return;
      }
      sent := sent + [code];
    }

    // Swap, then drain the swapped queue. With a usable connection the codes whose send
    // succeeds go out in queue order and the others stay queued in their order; without
    // one, or when every send fails, nothing changes.
    method ProcessMessageQueue(failing: set<int>)
      requires Valid()
      modifies this`messageQueue, this`messageSet, this`sent
      ensures Valid()
      ensures !CanSend() ==> messageQueue == old(messageQueue) && messageSet == old(messageSet) && sent == old(sent)
      ensures CanSend() ==>
                && sent == old(sent) + Select(old(messageQueue), Succeeds(failing))
                && messageQueue == Select(old(messageQueue), Fails(failing))
      ensures old(messageSet) <= failing ==> messageQueue == old(messageQueue) && sent == old(sent)
    {
      hide Select, NoDuplicates, Elements, Enqueue;
      NothingToDrain(failing);
      if messageQueue == [] {
        return;
      }
      ghost var all := messageQueue;
      var tempQueue := messageQueue;
      messageQueue, messageSet := [], {};
      if !CanSend() {
        PutBack(tempQueue);
        EnqueueAllFresh([], all);
        assert [] + all == all;
        return;
      }
      ghost var done: seq<int> := [];
      while tempQueue != []
        invariant Valid() && CanSend() && all == done + tempQueue
        invariant sent == old(sent) + Select(done, Succeeds(failing))
        invariant messageQueue == Select(done, Fails(failing))
        decreases |tempQueue|
      {
        var code := tempQueue[0];
        tempQueue := tempQueue[1..];
        DrainStep(all, done, code, tempQueue, failing);
        SendMessage(code, failing);
        done := done + [code];
      }
      assert done == all;
      if old(messageSet) <= failing {
        AllFail(all, failing);
      }
    }

    // The loop that returns a swapped queue under the queue lock.
    method PutBack(codes: seq<int>)
      requires Valid()
      modifies this`messageQueue, this`messageSet
      ensures Valid() && messageQueue == EnqueueAll(old(messageQueue), codes)
    {
      var tempQueue := codes;
      while tempQueue != []
        invariant Valid() && EnqueueAll(messageQueue, tempQueue) == EnqueueAll(old(messageQueue), codes)
        decreases |tempQueue|
      {
        AddMessageToQueue(tempQueue[0]);
        tempQueue := tempQueue[1..];
      }
    }

    method OnAbilityConnectDone(remoteObject: bool, failing: set<int>)
      requires Valid()
      modifies this
      ensures Valid() && connectionState == CONNECTED && proxy == remoteObject
      ensures !remoteObject ==> messageQueue == old(messageQueue) && sent == old(sent)
      ensures remoteObject ==>
                && sent == old(sent) + Select(old(messageQueue), Succeeds(failing))
                && messageQueue == Select(old(messageQueue), Fails(failing))
    {
      proxy := remoteObject;
      connectionState := CONNECTED;
      ProcessMessageQueue(failing);
    }

    method OnAbilityDisconnectDone()
      requires Valid()
      modifies this`proxy, this`connectionState
      ensures Valid() && !CanSend() && connectionState == DISCONNECTED
    {
      proxy := false;
      connectionState := DISCONNECTED;
    }

    method DisconnectIfIdle()
      requires Valid()
      modifies this`connectionState
      ensures Valid() && !CanSend()
      ensures connectionState == if old(CanSend()) then DISCONNECTED else old(connectionState)
    {
      if proxy && connectionState == CONNECTED {
        connectionState := DISCONNECTED;
      }
    }
  }
}

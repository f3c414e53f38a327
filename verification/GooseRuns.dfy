/**
 Whole runs of GOOSE receivers and subscribers: any sequence of calls on the objects
 is a run of the operations on values.
 */
module GooseRuns {
  import opened GooseSpec
  import opened GooseSubscriber

  /** The receiver at position `i` shows what the values say, and lists subscribers that exist. */
  ghost predicate ReceiverFits(library: GooseLibrary, receivers: seq<GooseReceiver>, subscribers: seq<GooseSubscriber>,
                               i: nat, r: Receiver)
    requires i < |receivers|
    reads library, receivers
  {
    && receivers[i].id == i && receivers[i].Valid() && receivers[i].View(library) == r
    && forall u | u in receivers[i].subscribers :: u.id < |subscribers| && subscribers[u.id] == u
  }

  ghost predicate SubscriberFits(library: GooseLibrary, subscribers: seq<GooseSubscriber>, s: nat, u: Subscriber)
    requires s < |subscribers|
    reads library, subscribers
  {
    subscribers[s].id == s && subscribers[s].Valid() && subscribers[s].View(library) == u
  }

  /** The native library knows nothing of what is not made yet. */
  ghost predicate Untouched(library: GooseLibrary, receivers: nat, subscribers: nat)
    reads library
  {
    && (forall r: ReceiverId | r >= receivers :: library.HeldBy(r) == [])
    && (forall s: SubscriberId | s >= subscribers :: library.Freed(s) == 0)
  }

  ghost predicate Fits(library: GooseLibrary, receivers: seq<GooseReceiver>, subscribers: seq<GooseSubscriber>,
                       w: World)
    reads library, receivers, subscribers
  {
    && |receivers| == |w.receivers| && |subscribers| == |w.subscribers|
    && (forall i {:trigger ReceiverFits(library, receivers, subscribers, i, w.receivers[i])} | 0 <= i < |receivers| ::
          ReceiverFits(library, receivers, subscribers, i, w.receivers[i]))
    && (forall s {:trigger SubscriberFits(library, subscribers, s, w.subscribers[s])} | 0 <= s < |subscribers| ::
          SubscriberFits(library, subscribers, s, w.subscribers[s]))
    && Untouched(library, |receivers|, |subscribers|)
  }

  method AddOne(library: GooseLibrary, receivers: seq<GooseReceiver>, subscribers: seq<GooseSubscriber>, ghost w: World,
                op: Op)
    requires Fits(library, receivers, subscribers, w) && Possible(w, op) && op.Add?
    modifies library, receivers, subscribers
    ensures Fits(library, receivers, subscribers, Step(w, op))
  {
    assert ReceiverFits(library, receivers, subscribers, op.r, w.receivers[op.r]);
    assert SubscriberFits(library, subscribers, op.s, w.subscribers[op.s]);
    receivers[op.r].AddSubscriber(library, subscribers[op.s]);
    assert forall s: SubscriberId :: library.Freed(s) == old(library.Freed(s));
    forall i | 0 <= i < |receivers| ensures ReceiverFits(library, receivers, subscribers, i, Step(w, op).receivers[i]) {
      assert old(ReceiverFits(library, receivers, subscribers, i, w.receivers[i]));
    }
    forall s | 0 <= s < |subscribers| ensures SubscriberFits(library, subscribers, s, Step(w, op).subscribers[s]) {
      assert old(SubscriberFits(library, subscribers, s, w.subscribers[s]));
    }
  }

  method RemoveOne(library: GooseLibrary, receivers: seq<GooseReceiver>, subscribers: seq<GooseSubscriber>,
                   ghost w: World, op: Op)
    requires Fits(library, receivers, subscribers, w) && Possible(w, op) && op.Remove?
    modifies library, receivers, subscribers
    ensures Fits(library, receivers, subscribers, Step(w, op))
  {
    assert ReceiverFits(library, receivers, subscribers, op.r, w.receivers[op.r]);
    assert SubscriberFits(library, subscribers, op.s, w.subscribers[op.s]);
    receivers[op.r].RemoveSubscriber(library, subscribers[op.s]);
    assert forall s: SubscriberId :: library.Freed(s) == old(library.Freed(s));
    forall i | 0 <= i < |receivers| ensures ReceiverFits(library, receivers, subscribers, i, Step(w, op).receivers[i]) {
      assert old(ReceiverFits(library, receivers, subscribers, i, w.receivers[i]));
    }
    forall s | 0 <= s < |subscribers| ensures SubscriberFits(library, subscribers, s, Step(w, op).subscribers[s]) {
      assert old(SubscriberFits(library, subscribers, s, w.subscribers[s]));
    }
  }

  /** Nobody lists what is not made yet, so destroying a receiver frees only what is. */
  method DisposeReceiverOne(library: GooseLibrary, receivers: seq<GooseReceiver>, subscribers: seq<GooseSubscriber>,
                            ghost w: World, op: Op)
    requires Fits(library, receivers, subscribers, w) && Consistent(w) && Possible(w, op) && op.DisposeR?
    modifies library, receivers, subscribers
    ensures Fits(library, receivers, subscribers, Step(w, op))
  {
    assert ReceiverFits(library, receivers, subscribers, op.r, w.receivers[op.r]);
    receivers[op.r].Dispose(library);
    forall s: SubscriberId | s >= |subscribers| ensures library.Freed(s) == 0 {
      assert ListsAgree(w.receivers[op.r], w.subscribers, s);
    }
    forall i | 0 <= i < |receivers| ensures ReceiverFits(library, receivers, subscribers, i, Step(w, op).receivers[i]) {
      assert old(ReceiverFits(library, receivers, subscribers, i, w.receivers[i]));
    }
    forall s | 0 <= s < |subscribers| ensures SubscriberFits(library, subscribers, s, Step(w, op).subscribers[s]) {
      assert old(SubscriberFits(library, subscribers, s, w.subscribers[s]));
    }
  }

  method DisposeSubscriberOne(library: GooseLibrary, receivers: seq<GooseReceiver>, subscribers: seq<GooseSubscriber>,
                              ghost w: World, op: Op)
    requires Fits(library, receivers, subscribers, w) && Possible(w, op) && op.DisposeS?
    modifies library, receivers, subscribers
    ensures Fits(library, receivers, subscribers, Step(w, op))
  {
    assert SubscriberFits(library, subscribers, op.s, w.subscribers[op.s]);
    subscribers[op.s].Dispose(library);
    forall i | 0 <= i < |receivers| ensures ReceiverFits(library, receivers, subscribers, i, Step(w, op).receivers[i]) {
      assert old(ReceiverFits(library, receivers, subscribers, i, w.receivers[i]));
    }
    forall s | 0 <= s < |subscribers| ensures SubscriberFits(library, subscribers, s, Step(w, op).subscribers[s]) {
      assert old(SubscriberFits(library, subscribers, s, w.subscribers[s]));
    }
  }

  method MakeOne(library: GooseLibrary, receivers: seq<GooseReceiver>, subscribers: seq<GooseSubscriber>,
                 ghost w: World, op: Op)
    returns (receivers': seq<GooseReceiver>, subscribers': seq<GooseSubscriber>)
    requires Fits(library, receivers, subscribers, w) && (op.NewReceiver? || op.NewSubscriber?)
    ensures Fits(library, receivers', subscribers', Step(w, op))
    ensures forall i | 0 <= i < |receivers'| :: receivers'[i] in receivers || fresh(receivers'[i])
    ensures forall s | 0 <= s < |subscribers'| :: subscribers'[s] in subscribers || fresh(subscribers'[s])
  {
    receivers', subscribers' := receivers, subscribers;
    if op.NewReceiver? {
      var r := new GooseReceiver(|receivers|);
      receivers' := receivers + [r];
    } else {
      var u := new GooseSubscriber(|subscribers|);
      subscribers' := subscribers + [u];
    }
    forall i | 0 <= i < |receivers'|
      ensures ReceiverFits(library, receivers', subscribers', i, Step(w, op).receivers[i])
    {
      if i < |receivers| { assert old(ReceiverFits(library, receivers, subscribers, i, w.receivers[i])); }
    }
    forall s | 0 <= s < |subscribers'| ensures SubscriberFits(library, subscribers', s, Step(w, op).subscribers[s]) {
      if s < |subscribers| { assert old(SubscriberFits(library, subscribers, s, w.subscribers[s])); }
    }
  }

  method Perform(library: GooseLibrary, receivers: seq<GooseReceiver>, subscribers: seq<GooseSubscriber>,
                 ghost w: World, op: Op)
    returns (receivers': seq<GooseReceiver>, subscribers': seq<GooseSubscriber>)
    requires Fits(library, receivers, subscribers, w) && Consistent(w) && Possible(w, op)
    modifies library, receivers, subscribers
    ensures Fits(library, receivers', subscribers', Step(w, op))
    ensures forall i | 0 <= i < |receivers'| :: receivers'[i] in receivers || fresh(receivers'[i])
    ensures forall s | 0 <= s < |subscribers'| :: subscribers'[s] in subscribers || fresh(subscribers'[s])
  {
    receivers', subscribers' := receivers, subscribers;
    match op {
      case Add(_, _) => AddOne(library, receivers, subscribers, w, op);
      case Remove(_, _) => RemoveOne(library, receivers, subscribers, w, op);
      case DisposeR(_) => DisposeReceiverOne(library, receivers, subscribers, w, op);
      case DisposeS(_) => DisposeSubscriberOne(library, receivers, subscribers, w, op);
      case _ => receivers', subscribers' := MakeOne(library, receivers, subscribers, w, op);
    }
  }

  /**
   Any run, from a new native library: the objects end as the values do, so a native subscriber is
   freed as often as the values say.
   */
  method Replay(ops: seq<Op>)
    returns (library: GooseLibrary, receivers: seq<GooseReceiver>, subscribers: seq<GooseSubscriber>)
    requires IsRun(ops)
    ensures Fits(library, receivers, subscribers, After(ops))
    ensures forall s | 0 <= s < |subscribers| :: library.Freed(s) == After(ops).subscribers[s].freed
    ensures fresh(library) && (forall i | 0 <= i < |receivers| :: fresh(receivers[i])) &&
              (forall s | 0 <= s < |subscribers| :: fresh(subscribers[s]))
  {
    if ops == [] {
      library := new GooseLibrary();
      receivers, subscribers := [], [];
    } else {
      var before := ops[..|ops| - 1];
      library, receivers, subscribers := Replay(before);
      ClaimsConserved(before, 0);
      receivers, subscribers := Perform(library, receivers, subscribers, After(before), ops[|ops| - 1]);
      assert forall s | 0 <= s < |subscribers| :: SubscriberFits(library, subscribers, s, After(ops).subscribers[s]);
    }
  }
}

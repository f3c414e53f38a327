/**
 The managed GOOSE receiver and subscriber over the native library.  Each method is
 tied to the operation on values for the receiver and the subscriber it touches.
 */
module GooseSubscriber {
  import opened GooseSpec
  import opened NativeModel

  /** The pointer to a native object is one more than its identifier. */
  function PointerTo(id: nat): Ptr { id + 1 }

  /** The native library: what each native receiver holds and how often each native subscriber was freed. */
  class GooseLibrary {
    var held: map<ReceiverId, seq<SubscriberId>>
    var freed: map<SubscriberId, nat>

    constructor ()
      ensures held == map[] && freed == map[]
    {
      held, freed := map[], map[];
    }

    function HeldBy(r: ReceiverId): seq<SubscriberId>
      reads this`held
    {
      if r in held then held[r] else []
    }

    function Freed(s: SubscriberId): nat
      reads this`freed
    {
      if s in freed then freed[s] else 0
    }

    method AddSubscriber(r: Ptr, s: Ptr)
      requires r >= 0 && s >= 0
      modifies this`held
      ensures held == if r == NULL || s == NULL then old(held) else old(held)[r - 1 := old(HeldBy(r - 1)) + [s - 1]]
    {
      if r != NULL && s != NULL {
        held := held[r - 1 := HeldBy(r - 1) + [s - 1]];
      }
    }

    method RemoveSubscriber(r: Ptr, s: Ptr)
      requires r >= 0 && s >= 0
      modifies this`held
      ensures held == if r == NULL || s == NULL then old(held)
                      else old(held)[r - 1 := Without(old(HeldBy(r - 1)), s - 1)]
    {
      if r != NULL && s != NULL {
        held := held[r - 1 := Without(HeldBy(r - 1), s - 1)];
      }
    }

    /** Destroying a receiver also frees the subscribers it holds. */
    method DestroyReceiver(r: Ptr)
      requires r > 0
      modifies this
      ensures held == old(held)[r - 1 := []]
      ensures forall s: SubscriberId :: Freed(s) == old(Freed(s)) + Occurrences(old(HeldBy(r - 1)), s)
    {
      var list := HeldBy(r - 1);
      held := held[r - 1 := []];
      for i := |list| downto 0
        invariant forall s: SubscriberId :: Freed(s) == old(Freed(s)) + Occurrences(list[i..], s)
        invariant held == old(held)[r - 1 := []]
      {
        freed := freed[list[i] := Freed(list[i]) + 1];
        assert list[i..][1..] == list[i + 1..];
      }
      assert list[0..] == list;
    }

    method DestroySubscriber(s: Ptr)
      requires s > 0
      modifies this`freed
      ensures freed == old(freed)[s - 1 := old(Freed(s - 1)) + 1]
    {
      freed := freed[s - 1 := Freed(s - 1) + 1];
    }
  }

  class GooseSubscriber {
    const id: SubscriberId
    var self: Ptr
    var isDisposed: bool
    var attachedToReceiver: bool

    constructor (id: SubscriberId)
      ensures this.id == id && Valid() && !isDisposed && !attachedToReceiver
    {
      this.id, self, isDisposed, attachedToReceiver := id, PointerTo(id), false, false;
    }

    ghost predicate Valid()
      reads this
    {
      self == if isDisposed then NULL else PointerTo(id)
    }

    ghost function View(library: GooseLibrary): Subscriber
      reads this, library
    {
      Subscriber(isDisposed, attachedToReceiver, library.Freed(id))
    }

    method Dispose(library: GooseLibrary)
      requires Valid()
      modifies this, library
      ensures Valid() && View(library) == DisposeSubscriber(old(View(library)))
      ensures library.held == old(library.held)
      ensures forall s: SubscriberId | s != id :: library.Freed(s) == old(library.Freed(s))
    {
      if !isDisposed {
        isDisposed := true;
        if !attachedToReceiver {
          library.DestroySubscriber(self);
        }
        self := NULL;
      }
    }
  }

  /** List.Remove by reference: the first occurrence. */
  function WithoutMember(list: seq<GooseSubscriber>, s: GooseSubscriber): (rest: seq<GooseSubscriber>)
    ensures forall u | u in rest :: u in list
  {
    if list == [] then []
    else if list[0] == s then list[1..]
    else [list[0]] + WithoutMember(list[1..], s)
  }

  function Ids(list: seq<GooseSubscriber>): seq<SubscriberId> {
    seq(|list|, i requires 0 <= i < |list| => list[i].id)
  }

  lemma {:induction false} IdsWithout(list: seq<GooseSubscriber>, s: GooseSubscriber)
    requires forall u | u in list && u.id == s.id :: u == s
    ensures Ids(WithoutMember(list, s)) == Without(Ids(list), s.id)
  {
    if list != [] {
      IdsWithout(list[1..], s);
      assert Ids(list)[1..] == Ids(list[1..]);
      assert list[0] in list;
      if list[0] != s {
        assert Ids([list[0]] + WithoutMember(list[1..], s)) == [list[0].id] + Ids(WithoutMember(list[1..], s));
      }
    }
  }

  class GooseReceiver {
    const id: ReceiverId
    var self: Ptr
    var isDisposed: bool
    var subscribers: seq<GooseSubscriber>

    constructor (id: ReceiverId)
      ensures this.id == id && Valid() && !isDisposed && subscribers == []
    {
      this.id, self, isDisposed, subscribers := id, PointerTo(id), false, [];
    }

    ghost predicate Valid()
      reads this
    {
      self == if isDisposed then NULL else PointerTo(id)
    }

    ghost function View(library: GooseLibrary): Receiver
      reads this, library
    {
      Receiver(isDisposed, Ids(subscribers), library.HeldBy(id))
    }

    method AddSubscriber(library: GooseLibrary, subscriber: GooseSubscriber)
      requires Valid() && subscriber.Valid()
      modifies this`subscribers, subscriber`attachedToReceiver, library`held
      ensures Valid() && subscriber.Valid()
      ensures subscribers == if old(subscriber.attachedToReceiver)
                then old(subscribers) else old(subscribers) + [subscriber]
      ensures (View(library), subscriber.View(library)) ==
                AddTo(old(View(library)), subscriber.id, old(subscriber.View(library)))
      ensures forall r: ReceiverId | r != id :: library.HeldBy(r) == old(library.HeldBy(r))
    {
      if !subscriber.attachedToReceiver {
        subscriber.attachedToReceiver := true;
        library.AddSubscriber(self, subscriber.self);
        subscribers := subscribers + [subscriber];
        assert Ids(subscribers) == Ids(old(subscribers)) + [subscriber.id];
      }
    }

    method RemoveSubscriber(library: GooseLibrary, subscriber: GooseSubscriber)
      requires Valid() && subscriber.Valid()
      requires forall u | u in subscribers && u.id == subscriber.id :: u == subscriber
      modifies this`subscribers, subscriber`attachedToReceiver, library`held
      ensures Valid() && subscriber.Valid()
      ensures subscribers == if old(subscriber.attachedToReceiver)
                then WithoutMember(old(subscribers), subscriber) else old(subscribers)
      ensures (View(library), subscriber.View(library)) ==
                RemoveFrom(old(View(library)), subscriber.id, old(subscriber.View(library)))
      ensures forall r: ReceiverId | r != id :: library.HeldBy(r) == old(library.HeldBy(r))
    {
      if subscriber.attachedToReceiver {
        library.RemoveSubscriber(self, subscriber.self);
        IdsWithout(subscribers, subscriber);
        subscribers := WithoutMember(subscribers, subscriber);
        subscriber.attachedToReceiver := false;
      }
    }

    method Dispose(library: GooseLibrary)
      requires Valid()
      modifies this, library
      ensures Valid() && subscribers == old(subscribers) && View(library) == DisposeReceiver(old(View(library)))
      ensures forall s: SubscriberId ::
                library.Freed(s) ==
                old(library.Freed(s)) + if old(isDisposed) then 0 else Occurrences(old(library.HeldBy(id)), s)
      ensures forall r: ReceiverId | r != id :: library.HeldBy(r) == old(library.HeldBy(r))
    {
      if !isDisposed {
        isDisposed := true;
        library.DestroyReceiver(self);
        self := NULL;
      }
    }
  }
}

/**
 Ownership of native GOOSE subscribers: managed receivers and subscribers on values,
 the native receivers' lists, and how often each native subscriber was freed.  A
 native call that is given a null pointer is taken to do nothing.
 */
module GooseSpec {

  type ReceiverId = nat
  type SubscriberId = nat

  /** `members` is the managed list, `held` the native one; a disposed receiver has no native list any more. */
  datatype Receiver = Receiver(disposed: bool, members: seq<SubscriberId>, held: seq<SubscriberId>)

  /** `freed` counts the calls that released the native subscriber. */
  datatype Subscriber = Subscriber(disposed: bool, attached: bool, freed: nat)

  /** All receivers and subscribers ever made; an identifier is a position. */
  datatype World = World(receivers: seq<Receiver>, subscribers: seq<Subscriber>)

  /** List removal takes out the first occurrence, if there is one. */
  function Without(list: seq<SubscriberId>, s: SubscriberId): seq<SubscriberId> {
    if list == [] then []
    else if list[0] == s then list[1..]
    else [list[0]] + Without(list[1..], s)
  }

  function Occurrences(list: seq<SubscriberId>, s: SubscriberId): nat {
    if list == [] then 0 else (if list[0] == s then 1 else 0) + Occurrences(list[1..], s)
  }

  // ---- The operations on one receiver and one subscriber ----

  function AddTo(r: Receiver, id: SubscriberId, s: Subscriber): (Receiver, Subscriber) {
    if s.attached then (r, s)
    else
      (r.(members := r.members + [id], held := if r.disposed || s.disposed then r.held else r.held + [id]),
       s.(attached := true))
  }

  function RemoveFrom(r: Receiver, id: SubscriberId, s: Subscriber): (Receiver, Subscriber) {
    if !s.attached then (r, s)
    else
      (r.(members := Without(r.members, id), held := if r.disposed || s.disposed then r.held else Without(r.held, id)),
       s.(attached := false))
  }

  function DisposeSubscriber(s: Subscriber): Subscriber {
    if s.disposed then s
    else s.(disposed := true, freed := if s.attached then s.freed else s.freed + 1)
  }

  function DisposeReceiver(r: Receiver): Receiver {
    if r.disposed then r else r.(disposed := true, held := [])
  }

  /** Destroying a native receiver frees what its native list holds. */
  function FreedByReceiver(r: Receiver, id: SubscriberId, s: Subscriber): Subscriber {
    if r.disposed then s else s.(freed := s.freed + Occurrences(r.held, id))
  }

  // ---- Runs ----

  datatype Op =
    | NewReceiver
    | NewSubscriber
    | Add(r: ReceiverId, s: SubscriberId)
    | Remove(r: ReceiverId, s: SubscriberId)
    | DisposeR(r: ReceiverId)
    | DisposeS(s: SubscriberId)

  predicate Possible(w: World, op: Op) {
    match op
    case NewReceiver => true
    case NewSubscriber => true
    case Add(r, s) => r < |w.receivers| && s < |w.subscribers|
    case Remove(r, s) => r < |w.receivers| && s < |w.subscribers|
    case DisposeR(r) => r < |w.receivers|
    case DisposeS(s) => s < |w.subscribers|
  }

  function Step(w: World, op: Op): World
    requires Possible(w, op)
  {
    match op
    case NewReceiver => w.(receivers := w.receivers + [Receiver(false, [], [])])
    case NewSubscriber => w.(subscribers := w.subscribers + [Subscriber(false, false, 0)])
    case Add(r, s) =>
      var (receiver, subscriber) := AddTo(w.receivers[r], s, w.subscribers[s]);
      World(w.receivers[r := receiver], w.subscribers[s := subscriber])
    case Remove(r, s) =>
      var (receiver, subscriber) := RemoveFrom(w.receivers[r], s, w.subscribers[s]);
      World(w.receivers[r := receiver], w.subscribers[s := subscriber])
    case DisposeR(r) =>
      World(w.receivers[r := DisposeReceiver(w.receivers[r])],
            seq(|w.subscribers|, s requires 0 <= s < |w.subscribers| =>
              FreedByReceiver(w.receivers[r], s, w.subscribers[s])))
    case DisposeS(s) => w.(subscribers := w.subscribers[s := DisposeSubscriber(w.subscribers[s])])
  }

  predicate IsRun(ops: seq<Op>)
    decreases |ops|, 0
  {
    ops == [] || (IsRun(ops[..|ops| - 1]) && Possible(After(ops[..|ops| - 1]), ops[|ops| - 1]))
  }

  function After(ops: seq<Op>): World
    requires IsRun(ops)
    decreases |ops|, 1
  {
    if ops == [] then World([], []) else Step(After(ops[..|ops| - 1]), ops[|ops| - 1])
  }

  // ---- Counting ----

  /** Occurrences of a subscriber in the native lists of all receivers. */
  function HeldTotal(receivers: seq<Receiver>, s: SubscriberId): nat {
    if receivers == [] then 0 else Occurrences(receivers[0].held, s) + HeldTotal(receivers[1..], s)
  }

  /** Occurrences of a subscriber in the managed lists of all receivers. */
  function MemberTotal(receivers: seq<Receiver>, s: SubscriberId): nat {
    if receivers == [] then 0 else Occurrences(receivers[0].members, s) + MemberTotal(receivers[1..], s)
  }

  lemma {:induction false} TotalsAfterUpdate(receivers: seq<Receiver>, i: nat, r: Receiver, s: SubscriberId)
    requires i < |receivers|
    ensures HeldTotal(receivers[i := r], s) ==
              HeldTotal(receivers, s) - Occurrences(receivers[i].held, s) + Occurrences(r.held, s)
    ensures MemberTotal(receivers[i := r], s) ==
              MemberTotal(receivers, s) - Occurrences(receivers[i].members, s) + Occurrences(r.members, s)
  {
    if i > 0 {
      TotalsAfterUpdate(receivers[1..], i - 1, r, s);
      assert receivers[i := r][1..] == receivers[1..][i - 1 := r];
    }
  }

  lemma {:induction false} TotalsAfterNew(receivers: seq<Receiver>, s: SubscriberId)
    ensures HeldTotal(receivers + [Receiver(false, [], [])], s) == HeldTotal(receivers, s)
    ensures MemberTotal(receivers + [Receiver(false, [], [])], s) == MemberTotal(receivers, s)
  {
    if receivers != [] {
      TotalsAfterNew(receivers[1..], s);
      assert (receivers + [Receiver(false, [], [])])[1..] == receivers[1..] + [Receiver(false, [], [])];
    }
  }

  lemma {:induction false} OccurrencesAppend(list: seq<SubscriberId>, id: SubscriberId, s: SubscriberId)
    ensures Occurrences(list + [id], s) == Occurrences(list, s) + if id == s then 1 else 0
  {
    if list != [] {
      OccurrencesAppend(list[1..], id, s);
      assert (list + [id])[1..] == list[1..] + [id];
    }
  }

  lemma {:induction false} OccurrencesWithout(list: seq<SubscriberId>, id: SubscriberId, s: SubscriberId)
    ensures Occurrences(Without(list, id), s) ==
            if id == s && s in list then Occurrences(list, s) - 1 else Occurrences(list, s)
    ensures Occurrences(list, s) > 0 <==> s in list
  {
    if list != [] {
      OccurrencesWithout(list[1..], id, s);
    }
  }

  // ---- What every run keeps ----

  /**
   A disposed receiver has no native list; as long as both sides live, the managed and the native
   list agree; lists name only what exists.
   */
  ghost predicate ListsAgree(r: Receiver, subscribers: seq<Subscriber>, s: SubscriberId) {
    && (r.disposed ==> r.held == [])
    && (s < |subscribers| && !r.disposed && !subscribers[s].disposed ==>
         Occurrences(r.members, s) == Occurrences(r.held, s))
    && (s >= |subscribers| ==> Occurrences(r.members, s) == 0 && Occurrences(r.held, s) == 0)
  }

  ghost predicate Consistent(w: World) {
    forall i, s: nat {:trigger ListsAgree(w.receivers[i], w.subscribers, s)} | 0 <= i < |w.receivers| ::
        ListsAgree(w.receivers[i], w.subscribers, s)
  }

  lemma StepConsistent(w: World, op: Op)
    requires Consistent(w) && Possible(w, op)
    ensures Consistent(Step(w, op))
  {
    var after := Step(w, op);
    forall i, s: nat | 0 <= i < |after.receivers| ensures ListsAgree(after.receivers[i], after.subscribers, s) {
      if i < |w.receivers| {
        assert ListsAgree(w.receivers[i], w.subscribers, s);
        if (op.Add? || op.Remove?) && op.r == i {
          OccurrencesAppend(w.receivers[i].members, op.s, s);
          OccurrencesAppend(w.receivers[i].held, op.s, s);
          OccurrencesWithout(w.receivers[i].members, op.s, s);
          OccurrencesWithout(w.receivers[i].held, op.s, s);
        }
      }
    }
  }

  /** Who will still free, or has freed, the native subscriber: native lists, the subscriber itself, and the past. */
  function Claims(w: World, s: SubscriberId): nat
    requires s < |w.subscribers|
  {
    var u := w.subscribers[s];
    u.freed + HeldTotal(w.receivers, s) + if !u.attached && !u.disposed then 1 else 0
  }

  /** A live, attached subscriber is removed through a receiver that is disposed or does not list it. */
  predicate WrongRemoval(w: World, op: Op, s: SubscriberId)
    requires Possible(w, op)
  {
    && op.Remove? && op.s == s && w.subscribers[s].attached && !w.subscribers[s].disposed
    && (w.receivers[op.r].disposed || s !in w.receivers[op.r].members)
  }

  /** A live, free subscriber is added to a disposed receiver. */
  predicate LostAdd(w: World, op: Op, s: SubscriberId)
    requires Possible(w, op)
  {
    && op.Add? && op.s == s && !w.subscribers[s].attached && !w.subscribers[s].disposed
    && w.receivers[op.r].disposed
  }

  lemma ListsBound(w: World, r: ReceiverId, s: SubscriberId)
    requires Consistent(w) && r < |w.receivers| && s < |w.subscribers| && !w.receivers[r].disposed &&
               !w.subscribers[s].disposed
    ensures s in w.receivers[r].members <==> s in w.receivers[r].held
  {
    assert ListsAgree(w.receivers[r], w.subscribers, s);
    OccurrencesWithout(w.receivers[r].members, s, s);
    OccurrencesWithout(w.receivers[r].held, s, s);
  }

  lemma ClaimsAfterRemove(w: World, r: ReceiverId, id: SubscriberId, s: SubscriberId)
    requires Consistent(w) && Possible(w, Remove(r, id)) && s < |w.subscribers|
    ensures Claims(Step(w, Remove(r, id)), s) == Claims(w, s) + if WrongRemoval(w, Remove(r, id), s) then 1 else 0
  {
    TotalsAfterUpdate(w.receivers, r, Step(w, Remove(r, id)).receivers[r], s);
    OccurrencesWithout(w.receivers[r].held, id, s);
    if !w.receivers[r].disposed && !w.subscribers[id].disposed { ListsBound(w, r, id); }
  }

  /** Each step conserves the claims on a subscriber, except that a wrong removal adds one and a lost add drops one. */
  lemma ClaimsStep(w: World, op: Op, s: SubscriberId)
    requires Consistent(w) && Possible(w, op) && s < |w.subscribers|
    ensures Claims(Step(w, op), s) ==
              Claims(w, s) + (if WrongRemoval(w, op, s) then 1 else 0) - (if LostAdd(w, op, s) then 1 else 0)
  {
    match op
    case NewReceiver => TotalsAfterNew(w.receivers, s);
    case NewSubscriber =>
    case Add(r, id) =>
      TotalsAfterUpdate(w.receivers, r, Step(w, op).receivers[r], s);
      OccurrencesAppend(w.receivers[r].held, id, s);
    case Remove(r, id) => ClaimsAfterRemove(w, r, id, s);
    case DisposeR(r) =>
      TotalsAfterUpdate(w.receivers, r, Step(w, op).receivers[r], s);
      assert ListsAgree(w.receivers[r], w.subscribers, s);
    case DisposeS(id) =>
  }

  /** How often a kind of step happened to a subscriber in a run. */
  function WrongRemovals(ops: seq<Op>, s: SubscriberId): nat
    requires IsRun(ops)
  {
    if ops == [] then 0
    else WrongRemovals(ops[..|ops| - 1], s) + if WrongRemoval(After(ops[..|ops| - 1]), ops[|ops| - 1], s) then 1 else 0
  }

  function LostAdds(ops: seq<Op>, s: SubscriberId): nat
    requires IsRun(ops)
  {
    if ops == [] then 0
    else LostAdds(ops[..|ops| - 1], s) + if LostAdd(After(ops[..|ops| - 1]), ops[|ops| - 1], s) then 1 else 0
  }

  lemma {:induction false} NoReceiverHoldsNew(receivers: seq<Receiver>, s: SubscriberId)
    requires forall i | 0 <= i < |receivers| ::
               Occurrences(receivers[i].held, s) == 0 && Occurrences(receivers[i].members, s) == 0
    ensures HeldTotal(receivers, s) == 0 && MemberTotal(receivers, s) == 0
  {
    if receivers != [] { NoReceiverHoldsNew(receivers[1..], s); }
  }

  lemma {:induction false} NotYetMade(ops: seq<Op>, s: SubscriberId)
    requires IsRun(ops) && |After(ops).subscribers| <= s
    ensures WrongRemovals(ops, s) == 0 && LostAdds(ops, s) == 0
  {
    if ops != [] { NotYetMade(ops[..|ops| - 1], s); }
  }

  /**
   Conservation over every run at all: the claims on a subscriber are one, plus its wrong removals,
   less its lost adds.
   */
  lemma {:induction false} ClaimsConserved(ops: seq<Op>, s: SubscriberId)
    requires IsRun(ops)
    ensures Consistent(After(ops))
    ensures s < |After(ops).subscribers| ==> Claims(After(ops), s) == 1 + WrongRemovals(ops, s) - LostAdds(ops, s)
  {
    if ops != [] {
      var before, op := ops[..|ops| - 1], ops[|ops| - 1];
      var w := After(before);
      ClaimsConserved(before, s);
      StepConsistent(w, op);
      if s < |w.subscribers| {
        ClaimsStep(w, op, s);
      } else if s < |After(ops).subscribers| {
        NotYetMade(before, s);
        assert forall i | 0 <= i < |w.receivers| :: ListsAgree(w.receivers[i], w.subscribers, s);
        NoReceiverHoldsNew(w.receivers, s);
      }
    }
  }

  predicate AllDisposed(w: World, s: SubscriberId)
    requires s < |w.subscribers|
  {
    w.subscribers[s].disposed && forall i | 0 <= i < |w.receivers| :: w.receivers[i].disposed
  }

  /**
   Once everything is disposed, a native subscriber was freed exactly once if and only if its wrong
   removals and lost adds balance.
   */
  lemma FreedExactlyOnceIff(ops: seq<Op>, s: SubscriberId)
    requires IsRun(ops) && s < |After(ops).subscribers| && AllDisposed(After(ops), s)
    ensures After(ops).subscribers[s].freed == 1 + WrongRemovals(ops, s) - LostAdds(ops, s)
    ensures After(ops).subscribers[s].freed == 1 <==> WrongRemovals(ops, s) == LostAdds(ops, s)
  {
    var w := After(ops);
    ClaimsConserved(ops, s);
    forall i | 0 <= i < |w.receivers| ensures w.receivers[i].held == [] {
      assert ListsAgree(w.receivers[i], w.subscribers, s);
    }
    NothingHeld(w.receivers, s);
  }

  lemma {:induction false} NothingHeld(receivers: seq<Receiver>, s: SubscriberId)
    requires forall i | 0 <= i < |receivers| :: receivers[i].held == []
    ensures HeldTotal(receivers, s) == 0
  {
    if receivers != [] { NothingHeld(receivers[1..], s); }
  }

  /** At any point of a run without wrong removals a native subscriber was freed at most once. */
  lemma FreedAtMostOnce(ops: seq<Op>, s: SubscriberId)
    requires IsRun(ops) && s < |After(ops).subscribers| && WrongRemovals(ops, s) == 0
    ensures After(ops).subscribers[s].freed <= 1
  {
    ClaimsConserved(ops, s);
  }

  lemma RunExtends(ops: seq<Op>, op: Op)
    requires IsRun(ops) && Possible(After(ops), op)
    ensures IsRun(ops + [op]) && After(ops + [op]) == Step(After(ops), op)
  {
    assert (ops + [op])[..|ops + [op]| - 1] == ops;
  }

  /** Two receivers, the first of which lists the one subscriber. */
  function Listing(u: Subscriber): World {
    World([Receiver(false, [0], [0]), Receiver(false, [], [])], [u])
  }

  lemma ListedByTheFirst() returns (ops: seq<Op>)
    ensures ops == [NewReceiver, NewReceiver, NewSubscriber, Add(0, 0)] && IsRun(ops)
    ensures After(ops) == Listing(Subscriber(false, true, 0))
  {
    var none: seq<SubscriberId> := [];
    assert none + [0] == [0];
    ops := [];
    RunExtends(ops, NewReceiver);
    ops := ops + [NewReceiver];
    RunExtends(ops, NewReceiver);
    ops := ops + [NewReceiver];
    RunExtends(ops, NewSubscriber);
    ops := ops + [NewSubscriber];
    assert After(ops).receivers == [Receiver(false, [], []), Receiver(false, [], [])];
    RunExtends(ops, Add(0, 0));
    ops := ops + [Add(0, 0)];
  }

  lemma RemovedByTheSecond(w: World)
    requires w == Listing(Subscriber(false, true, 0))
    ensures Step(w, Remove(1, 0)) == Listing(Subscriber(false, false, 0))
  {
  }

  lemma DisposedWhileListed(w: World)
    requires w == Listing(Subscriber(false, false, 0))
    ensures Step(w, DisposeS(0)) == Listing(Subscriber(true, false, 1))
  {
  }

  lemma FreedAgain(w: World)
    requires w == Listing(Subscriber(true, false, 1))
    ensures Step(w, DisposeR(0)).subscribers == [Subscriber(true, false, 2)]
  {
  }

  /** Without the condition it fails: removed through a receiver that does not list it, a subscriber is freed twice. */
  lemma WrongRemovalFreesTwice() returns (ops: seq<Op>)
    ensures ops == [NewReceiver, NewReceiver, NewSubscriber, Add(0, 0), Remove(1, 0), DisposeS(0), DisposeR(0)]
    ensures IsRun(ops) && |After(ops).subscribers| == 1 && After(ops).subscribers[0].freed == 2
  {
    ops := ListedByTheFirst();
    RemovedByTheSecond(After(ops));
    RunExtends(ops, Remove(1, 0));
    ops := ops + [Remove(1, 0)];
    DisposedWhileListed(After(ops));
    RunExtends(ops, DisposeS(0));
    ops := ops + [DisposeS(0)];
    FreedAgain(After(ops));
    RunExtends(ops, DisposeR(0));
    ops := ops + [DisposeR(0)];
  }

  // ---- The attached flag ----

  /** An attached subscriber is removed through a receiver whose list does not have it. */
  predicate Misdirected(w: World, op: Op, s: SubscriberId)
    requires Possible(w, op)
  {
    op.Remove? && op.s == s && w.subscribers[s].attached && s !in w.receivers[op.r].members
  }

  function MisdirectedRemovals(ops: seq<Op>, s: SubscriberId): nat
    requires IsRun(ops)
  {
    if ops == [] then 0
    else
      MisdirectedRemovals(ops[..|ops| - 1], s) +
      if Misdirected(After(ops[..|ops| - 1]), ops[|ops| - 1], s) then 1 else 0
  }

  lemma MembersStep(w: World, op: Op, s: SubscriberId)
    requires Possible(w, op) && s < |w.subscribers|
    ensures MemberTotal(Step(w, op).receivers, s) - (if Step(w, op).subscribers[s].attached then 1 else 0)
            == MemberTotal(w.receivers, s) - (if w.subscribers[s].attached then 1 else 0) +
                (if Misdirected(w, op, s) then 1 else 0)
  {
    match op
    case NewReceiver => TotalsAfterNew(w.receivers, s);
    case NewSubscriber =>
    case Add(r, id) =>
      TotalsAfterUpdate(w.receivers, r, Step(w, op).receivers[r], s);
      OccurrencesAppend(w.receivers[r].members, id, s);
    case Remove(r, id) =>
      TotalsAfterUpdate(w.receivers, r, Step(w, op).receivers[r], s);
      OccurrencesWithout(w.receivers[r].members, id, s);
    case DisposeR(r) =>
      TotalsAfterUpdate(w.receivers, r, Step(w, op).receivers[r], s);
    case DisposeS(id) =>
  }

  /**
   Over every run: the managed lists hold a subscriber once if it is attached and not otherwise,
   exactly when no removal was misdirected.
   */
  lemma {:induction false} AttachedMeansListedOnce(ops: seq<Op>, s: SubscriberId)
    requires IsRun(ops) && s < |After(ops).subscribers|
    ensures MemberTotal(After(ops).receivers, s) ==
              (if After(ops).subscribers[s].attached then 1 else 0) + MisdirectedRemovals(ops, s)
  {
    var before, op := ops[..|ops| - 1], ops[|ops| - 1];
    var w := After(before);
    if s < |w.subscribers| {
      AttachedMeansListedOnce(before, s);
      MembersStep(w, op, s);
    } else {
      NeverMisdirected(before, s);
      NewIsNotListed(before, s);
    }
  }

  lemma NewIsNotListed(ops: seq<Op>, s: SubscriberId)
    requires IsRun(ops) && |After(ops).subscribers| <= s
    ensures MemberTotal(After(ops).receivers, s) == 0
  {
    var w := After(ops);
    ClaimsConserved(ops, s);
    assert forall i | 0 <= i < |w.receivers| :: ListsAgree(w.receivers[i], w.subscribers, s);
    NoReceiverHoldsNew(w.receivers, s);
  }

  lemma {:induction false} NeverMisdirected(ops: seq<Op>, s: SubscriberId)
    requires IsRun(ops) && |After(ops).subscribers| <= s
    ensures MisdirectedRemovals(ops, s) == 0
  {
    if ops != [] { NeverMisdirected(ops[..|ops| - 1], s); }
  }

  // ---- What the flags say ----

  lemma DisposedStep(w: World, op: Op)
    requires Possible(w, op)
    ensures |w.subscribers| <= |Step(w, op).subscribers| && |w.receivers| <= |Step(w, op).receivers|
    ensures forall s | 0 <= s < |w.subscribers| ::
              Step(w, op).subscribers[s].disposed == (w.subscribers[s].disposed || op == DisposeS(s))
    ensures forall r | 0 <= r < |w.receivers| ::
              Step(w, op).receivers[r].disposed == (w.receivers[r].disposed || op == DisposeR(r))
    ensures forall s | |w.subscribers| <= s < |Step(w, op).subscribers| :: !Step(w, op).subscribers[s].disposed
    ensures forall r | |w.receivers| <= r < |Step(w, op).receivers| :: !Step(w, op).receivers[r].disposed
  {
  }

  /** In every run a subscriber or receiver is disposed exactly from its first Dispose on. */
  lemma {:induction false} DisposedIffDisposeCalled(ops: seq<Op>)
    requires IsRun(ops)
    ensures forall s: nat | s < |After(ops).subscribers| :: After(ops).subscribers[s].disposed <==> DisposeS(s) in ops
    ensures forall r: nat | r < |After(ops).receivers| :: After(ops).receivers[r].disposed <==> DisposeR(r) in ops
    ensures forall s: nat | DisposeS(s) in ops :: s < |After(ops).subscribers|
    ensures forall r: nat | DisposeR(r) in ops :: r < |After(ops).receivers|
  {
    if ops != [] {
      var before, op := ops[..|ops| - 1], ops[|ops| - 1];
      DisposedIffDisposeCalled(before);
      DisposedStep(After(before), op);
      assert ops == before + [op];
    }
  }

  /** Operation `i` attached the subscriber to some receiver, and none since has detached it. */
  ghost predicate AttachedSince(ops: seq<Op>, s: SubscriberId, i: int) {
    && 0 <= i < |ops| && ops[i].Add? && ops[i].s == s
    && forall j | i < j < |ops| :: !(ops[j].Remove? && ops[j].s == s)
  }

  /** In every run a subscriber is attached exactly when it was added somewhere and not removed since. */
  lemma {:induction false} AttachedIffAddedSince(ops: seq<Op>, s: SubscriberId)
    requires IsRun(ops) && s < |After(ops).subscribers|
    ensures After(ops).subscribers[s].attached <==> exists i :: AttachedSince(ops, s, i)
  {
    var n := |ops| - 1;
    var w := After(ops[..n]);
    assert forall j | 0 <= j < n :: ops[..n][j] == ops[j];
    if s < |w.subscribers| {
      AttachedIffAddedSince(ops[..n], s);
      if ops[n].Add? && ops[n].s == s { assert AttachedSince(ops, s, n); }
      forall i | i != n
        ensures AttachedSince(ops, s, i) <==> AttachedSince(ops[..n], s, i) && !(ops[n].Remove? && ops[n].s == s)
      {
      }
    } else {
      forall i ensures !AttachedSince(ops, s, i) {
        if 0 <= i < n { AddedMeansMade(ops[..n], i); }
      }
    }
  }

  lemma {:induction false} AddedMeansMade(ops: seq<Op>, i: nat)
    requires IsRun(ops) && i < |ops|
    ensures ops[i].Add? ==> ops[i].s < |After(ops).subscribers|
  {
    if i < |ops| - 1 {
      AddedMeansMade(ops[..|ops| - 1], i);
      assert ops[..|ops| - 1][i] == ops[i];
    }
  }

  /** An add that attaches goes to the end of its receiver's list, and of the native one while both sides live. */
  lemma AddGoesToItsReceiver(ops: seq<Op>, r: ReceiverId, s: SubscriberId)
    requires IsRun(ops) && r < |After(ops).receivers| && s < |After(ops).subscribers|
    requires !After(ops).subscribers[s].attached
    ensures var w, z := After(ops), After(ops + [Add(r, s)]);
            && z.receivers[r].members == w.receivers[r].members + [s]
            && (!w.receivers[r].disposed && !w.subscribers[s].disposed ==>
                  z.receivers[r].held == w.receivers[r].held + [s])
            && forall i | 0 <= i < |w.receivers| && i != r :: z.receivers[i] == w.receivers[i]
  {
    RunExtends(ops, Add(r, s));
  }
}

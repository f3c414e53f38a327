/**
 Lifetimes of the GC handles that asynchronous client requests and file downloads
 pass through the native library.  A handle value may be used again once it is free.
 */
module HandleSpec {

  type Handle = int

  datatype Callback = Callback(handler: int, parameter: int)

  /** A request that gets one callback, a file download that gets one per chunk, and a synchronous download. */
  datatype Kind = Single | File | SyncFile

  /** What the native library is working on: the handle it will pass back, for what, and whose request it was. */
  datatype Request = Request(kind: Kind, callback: Callback, inHandler: bool)

  /**
   `handles` is the runtime's table of allocated handles; `outstanding` is what the
   native library still has; `abandoned` are handles of synchronous downloads that
   ended in an exception; `faults` counts uses of handles that are not allocated.
   */
  datatype Client = Client(handles: map<Handle, Callback>, outstanding: map<Handle, Request>, abandoned: set<Handle>,
      faults: nat)

  const START := Client(map[], map[], {}, 0)

  datatype Event =
    | Start(h: Handle, kind: Kind, callback: Callback, error: bool)
    | Respond(h: Handle)
    | EnterChunk(h: Handle)
    | LeaveChunk(h: Handle, error: bool, moreFollows: bool, retVal: bool)
    | LeaveSyncChunk(h: Handle)
    | EndSync(h: Handle, error: bool)

  // ---- The pieces the source is made of ----

  /** GCHandle.Free. */
  function Free(y: Client, h: Handle): Client {
    if h in y.handles then y.(handles := y.handles - {h}) else y.(faults := y.faults + 1)
  }

  /** GCHandle.Target. */
  function Dereference(y: Client, h: Handle): Client {
    if h in y.handles then y else y.(faults := y.faults + 1)
  }

  /** The download goes on only after a chunk without error, with more to come, that the handler wants. */
  predicate Continues(error: bool, moreFollows: bool, retVal: bool) {
    !error && moreFollows && retVal
  }

  function Left(y: Client, h: Handle): Client {
    if h in y.outstanding then y.(outstanding := y.outstanding[h := y.outstanding[h].(inHandler := false)]) else y
  }

  function Step(y: Client, e: Event): Client {
    match e
    case Start(h, kind, callback, error) =>
      var pinned := y.(handles := y.handles[h := callback]);
      if error && kind != SyncFile then Free(pinned, h)
      else pinned.(outstanding := y.outstanding[h := Request(kind, callback, false)])
    case Respond(h) => Free(Dereference(y, h), h).(outstanding := y.outstanding - {h})
    case EnterChunk(h) =>
      var read := Dereference(y, h);
      if h in y.outstanding then read.(outstanding := y.outstanding[h := y.outstanding[h].(inHandler := true)])
          else read
    case LeaveChunk(h, error, moreFollows, retVal) =>
      if Continues(error, moreFollows, retVal) then Left(y, h)
      else Free(y, h).(outstanding := y.outstanding - {h})
    case LeaveSyncChunk(h) => Left(y, h)
    case EndSync(h, error) =>
      if error then y.(outstanding := y.outstanding - {h}, abandoned := y.abandoned + {h})
      else Free(y, h).(outstanding := y.outstanding - {h})
  }

  /**
   What the native library promises: callbacks only for accepted requests that are not
   finished, one for a single request, and for a file none after the terminal one.
   The runtime hands out handles that are not allocated.
   */
  predicate Promised(y: Client, e: Event) {
    match e
    case Start(h, _, _, _) => h !in y.handles
    case Respond(h) => h in y.outstanding && y.outstanding[h].kind == Single
    case EnterChunk(h) => h in y.outstanding && y.outstanding[h].kind != Single && !y.outstanding[h].inHandler
    case LeaveChunk(h, _, _, _) => h in y.outstanding && y.outstanding[h].kind == File && y.outstanding[h].inHandler
    case LeaveSyncChunk(h) => h in y.outstanding && y.outstanding[h].kind == SyncFile && y.outstanding[h].inHandler
    case EndSync(h, _) => h in y.outstanding && y.outstanding[h].kind == SyncFile && !y.outstanding[h].inHandler
  }

  predicate IsRun(events: seq<Event>) {
    events == [] || (IsRun(events[..|events| - 1]) && Promised(After(events[..|events| - 1]), events[|events| - 1]))
  }

  function After(events: seq<Event>): Client {
    if events == [] then START else Step(After(events[..|events| - 1]), events[|events| - 1])
  }

  /**
   No handle was used after it was freed, and the allocated handles are those of outstanding requests
   and of abandoned downloads.
   */
  ghost predicate Sound(y: Client) {
    && y.faults == 0
    && y.handles.Keys == y.outstanding.Keys + y.abandoned
    && y.outstanding.Keys !! y.abandoned
    && forall h | h in y.outstanding :: y.handles[h] == y.outstanding[h].callback
  }

  lemma StepSound(y: Client, e: Event)
    requires Sound(y) && Promised(y, e)
    ensures Sound(Step(y, e))
  {
  }

  /**
   In every run no handle is used or freed after being freed, and every callback finds the handler
   and parameter of its own request.
   */
  lemma {:induction false} RunsAreSound(events: seq<Event>)
    requires IsRun(events)
    ensures Sound(After(events))
  {
    if events != [] {
      RunsAreSound(events[..|events| - 1]);
      StepSound(After(events[..|events| - 1]), events[|events| - 1]);
    }
  }

  /** `i` is the accepted request for `h` that nothing has finished up to the end of the run. */
  ghost predicate RequestedAt(events: seq<Event>, h: Handle, i: int) {
    && 0 <= i < |events| && events[i].Start? && events[i].h == h && Accepted(events[i])
    && forall j | i < j < |events| && events[j].h == h :: !Finished(events[j]) && !events[j].Start?
  }

  lemma StillRequested(events: seq<Event>, h: Handle, i: int)
    requires events != [] && RequestedAt(events[..|events| - 1], h, i)
    requires var e := events[|events| - 1]; e.h == h ==> !Finished(e) && !e.Start?
    ensures RequestedAt(events, h, i)
  {
    assert forall j | 0 <= j < |events| - 1 :: events[..|events| - 1][j] == events[j];
  }

  /**
   A callback that comes next for `h` finds the handler and parameter of the one request for `h`
   still open, although handles are used again.
   */
  lemma {:induction false} CallbackFindsItsRequest(events: seq<Event>, h: Handle) returns (i: int)
    requires IsRun(events) && h in After(events).outstanding
    ensures RequestedAt(events, h, i)
    ensures h in After(events).handles && After(events).handles[h] == events[i].callback &&
              After(events).outstanding[h].kind == events[i].kind
  {
    var n := |events| - 1;
    var before, e := events[..n], events[n];
    RunsAreSound(before);
    RunsAreSound(events);
    if e.Start? && e.h == h {
      i := n;
    } else {
      StepKeys(After(before), e);
      i := CallbackFindsItsRequest(before, h);
      StillRequested(events, h, i);
    }
  }

  // ---- Counting handles ----

  predicate Accepted(e: Event) { e.Start? && (!e.error || e.kind == SyncFile) }

  /** The last thing that happens to an accepted request. */
  predicate Finished(e: Event) {
    e.Respond? || e.EndSync? || (e.LeaveChunk? && (e.error || !e.moreFollows || !e.retVal))
  }

  predicate FailedSync(e: Event) { e.EndSync? && e.error }

  function Count(events: seq<Event>, p: Event -> bool): nat {
    if events == [] then 0 else Count(events[..|events| - 1], p) + if p(events[|events| - 1]) then 1 else 0
  }

  lemma StepKeys(y: Client, e: Event)
    requires Sound(y) && Promised(y, e)
    ensures Accepted(e) ==> e.h !in y.outstanding && Step(y, e).outstanding.Keys == y.outstanding.Keys + {e.h}
    ensures Finished(e) ==> e.h in y.outstanding && Step(y, e).outstanding.Keys == y.outstanding.Keys - {e.h}
    ensures !Accepted(e) && !Finished(e) ==> Step(y, e).outstanding.Keys == y.outstanding.Keys
    ensures Step(y, e).abandoned == if FailedSync(e) then y.abandoned + {e.h} else y.abandoned
  {
  }

  lemma StepCounts(y: Client, e: Event)
    requires Sound(y) && Promised(y, e)
    ensures |Step(y, e).outstanding.Keys| ==
              |y.outstanding.Keys| + (if Accepted(e) then 1 else 0) - (if Finished(e) then 1 else 0)
    ensures |Step(y, e).abandoned| == |y.abandoned| + if FailedSync(e) then 1 else 0
  {
    StepKeys(y, e);
  }

  /**
   Over every run: the allocated handles are as many as the accepted requests not finished plus the
   synchronous downloads that failed.
   */
  lemma {:induction false} HandlesAreOutstandingPlusFailed(events: seq<Event>)
    requires IsRun(events)
    ensures |After(events).outstanding.Keys| == Count(events, Accepted) - Count(events, Finished)
    ensures |After(events).abandoned| == Count(events, FailedSync)
    ensures |After(events).handles.Keys| ==
              Count(events, Accepted) - Count(events, Finished) + Count(events, FailedSync)
  {
    if events != [] {
      var before := events[..|events| - 1];
      HandlesAreOutstandingPlusFailed(before);
      RunsAreSound(before);
      StepCounts(After(before), events[|events| - 1]);
    }
    RunsAreSound(events);
  }

  /** Without the promise it fails: a second response for one request uses a freed handle. */
  lemma SecondResponseFaults(callback: Callback)
    ensures After([Start(1, Single, callback, false), Respond(1), Respond(1)]).faults > 0
    ensures !IsRun([Start(1, Single, callback, false), Respond(1), Respond(1)])
  {
    var e0, e1 := Start(1, Single, callback, false), Respond(1);
    assert [e0, e1, e1][..2] == [e0, e1] && [e0, e1][..1] == [e0] && [e0][..0] == [];
    assert After([e0]) == Step(START, e0);
    assert After([e0, e1]) == Step(After([e0]), e1);
  }
}

/**
 The managed side of asynchronous requests: allocate a handle for the callback, hand
 it to the native library, free it when the last callback for it has come.
 */
module AsyncClient {
  import opened HandleSpec

  class AsyncClient {
    /** The runtime's table of allocated handles. */
    var handles: map<Handle, Callback>
    /** What the native library was given and is not done with, and what was given up; kept for the proof only. */
    ghost var outstanding: map<Handle, Request>
    ghost var abandoned: set<Handle>

    constructor ()
      ensures View() == START
    {
      handles, outstanding, abandoned := map[], map[], {};
    }

    ghost function View(): Client
      reads this
    {
      Client(handles, outstanding, abandoned, 0)
    }

    ghost predicate Valid()
      reads this
    {
      Sound(View())
    }

    /** GCHandle.Alloc gives a handle that is not allocated. */
    method Alloc(h: Handle, callback: Callback)
      requires h !in handles
      modifies this`handles
      ensures handles == old(handles)[h := callback]
    {
      handles := handles[h := callback];
    }

    /** GCHandle.Target of a handle that must still be allocated. */
    method Target(h: Handle) returns (callback: Callback)
      requires h in handles
      ensures callback == handles[h]
    {
      callback := handles[h];
    }

    /** GCHandle.Free of a handle that must still be allocated. */
    method FreeHandle(h: Handle)
      requires h in handles
      modifies this`handles
      ensures handles == old(handles) - {h}
    {
      handles := handles - {h};
    }

    /**
     DeleteFileAsync, GetFileAsync, OperateAsync, SelectAsync, SelectWithValueAsync, CancelAsync and
     the like; `error` is what the native call says.
     */
    method RequestAsync(h: Handle, kind: Kind, callback: Callback, error: bool)
      requires Valid() && kind != SyncFile && Promised(View(), Start(h, kind, callback, error))
      modifies this
      ensures Valid() && View() == Step(old(View()), Start(h, kind, callback, error))
    {
      StepSound(View(), Start(h, kind, callback, error));
      Alloc(h, callback);
      if error {
        FreeHandle(h);
      } else {
        outstanding := outstanding[h := Request(kind, callback, false)];
      }
    }

    /**
     nativeGenericServiceHandler, nativeOperateHandler and the like: the handle is freed before the
     application's handler runs.
     */
    method NativeServiceHandler(h: Handle) returns (invoked: Callback)
      requires Valid() && Promised(View(), Respond(h))
      modifies this
      ensures Valid() && View() == Step(old(View()), Respond(h))
      ensures invoked == old(outstanding)[h].callback
    {
      StepSound(View(), Respond(h));
      invoked := Target(h);
      FreeHandle(h);
      outstanding := outstanding - {h};
    }

    /** nativeGetFileAsyncHandler up to the call of the application's handler, which may make further requests. */
    method NativeGetFileAsyncEnter(h: Handle) returns (invoked: Callback)
      requires Valid() && Promised(View(), EnterChunk(h))
      modifies this
      ensures Valid() && View() == Step(old(View()), EnterChunk(h))
      ensures invoked == old(outstanding)[h].callback
    {
      StepSound(View(), EnterChunk(h));
      invoked := Target(h);
      outstanding := outstanding[h := outstanding[h].(inHandler := true)];
    }

    /** nativeGetFileAsyncHandler after the application's handler has returned `retVal`. */
    method NativeGetFileAsyncLeave(h: Handle, error: bool, moreFollows: bool, retVal: bool)
      requires Valid() && Promised(View(), LeaveChunk(h, error, moreFollows, retVal))
      modifies this
      ensures Valid() && View() == Step(old(View()), LeaveChunk(h, error, moreFollows, retVal))
      ensures h in handles <==> !error && moreFollows && retVal
    {
      StepSound(View(), LeaveChunk(h, error, moreFollows, retVal));
      ghost var goesOn := false;
      if error {
        FreeHandle(h);
      } else {
        if !moreFollows {
          FreeHandle(h);
        } else {
          if !retVal {
            FreeHandle(h);
          } else {
            goesOn := true;
          }
        }
      }
      outstanding := if goesOn then outstanding[h := outstanding[h].(inHandler := false)] else outstanding - {h};
    }

    /** GetFile up to the native call, which blocks until the download has ended. */
    method BeginGetFile(h: Handle, callback: Callback, ghost error: bool)
      requires Valid() && Promised(View(), Start(h, SyncFile, callback, error))
      modifies this
      ensures Valid() && View() == Step(old(View()), Start(h, SyncFile, callback, error))
    {
      StepSound(View(), Start(h, SyncFile, callback, error));
      Alloc(h, callback);
      outstanding := outstanding[h := Request(SyncFile, callback, false)];
    }

    /** nativeGetFileHandler after the application's handler has returned: nothing is left to do. */
    ghost method NativeGetFileLeave(h: Handle)
      requires Valid() && Promised(View(), LeaveSyncChunk(h))
      modifies this
      ensures Valid() && View() == Step(old(View()), LeaveSyncChunk(h))
    {
      StepSound(View(), LeaveSyncChunk(h));
      outstanding := outstanding[h := outstanding[h].(inHandler := false)];
    }

    /** GetFile after the native call: an exception leaves the handle behind. */
    method EndGetFile(h: Handle, error: bool)
      requires Valid() && Promised(View(), EndSync(h, error))
      modifies this
      ensures Valid() && View() == Step(old(View()), EndSync(h, error))
    {
      StepSound(View(), EndSync(h, error));
      outstanding := outstanding - {h};
      if error {
        abandoned := abandoned + {h};
        return;
      }
      FreeHandle(h);
    }

    /** GetFile with a handler that makes no requests: one call per chunk during the native call. */
    method GetFile(h: Handle, callback: Callback, chunks: nat, error: bool) returns (invoked: seq<Callback>)
      requires Valid() && Promised(View(), Start(h, SyncFile, callback, error))
      modifies this
      ensures Valid()
      ensures |invoked| == chunks && forall i | 0 <= i < chunks :: invoked[i] == callback
      ensures View() == Step(Step(old(View()), Start(h, SyncFile, callback, error)), EndSync(h, error))
    {
      BeginGetFile(h, callback, error);
      invoked := [];
      ghost var started := View();
      for i := 0 to chunks
        invariant Valid() && View() == started
        invariant |invoked| == i && forall k | 0 <= k < i :: invoked[k] == callback
      {
        var target := NativeGetFileAsyncEnter(h);
        NativeGetFileLeave(h);
        invoked := invoked + [target];
      }
      EndGetFile(h, error);
    }

    /** One event of a run; what the native library calls back is told to a handler. */
    method Perform(e: Event) returns (told: seq<Callback>)
      requires Valid() && Promised(View(), e)
      modifies this
      ensures Valid() && View() == Step(old(View()), e)
      ensures told == if IsCallback(e) then [old(outstanding)[e.h].callback] else []
    {
      told := [];
      match e
      case Start(h, kind, callback, error) =>
        if kind == SyncFile { BeginGetFile(h, callback, error); } else { RequestAsync(h, kind, callback, error); }
      case Respond(h) =>
        var invoked := NativeServiceHandler(h);
        told := [invoked];
      case EnterChunk(h) =>
        var invoked := NativeGetFileAsyncEnter(h);
        told := [invoked];
      case LeaveChunk(h, error, moreFollows, retVal) => NativeGetFileAsyncLeave(h, error, moreFollows, retVal);
      case LeaveSyncChunk(h) => NativeGetFileLeave(h);
      case EndSync(h, error) => EndGetFile(h, error);
    }
  }

  predicate IsCallback(e: Event) { e.Respond? || e.EnterChunk? }

  /** Every callback is told to the handler, with the parameter, of the one open request for its handle. */
  ghost predicate ToldRight(events: seq<Event>, told: seq<seq<Callback>>)
    requires |told| == |events|
  {
    forall n, i | 0 <= n < |events| && IsCallback(events[n]) && RequestedAt(events[..n], events[n].h, i) ::
        told[n] == [events[i].callback]
  }

  lemma ToldRightNext(events: seq<Event>, told: seq<seq<Callback>>, last: seq<Callback>)
    requires |told| + 1 == |events| && IsRun(events) && ToldRight(events[..|told|], told)
    requires var e := events[|told|]; IsCallback(e) ==> last == [After(events[..|told|]).outstanding[e.h].callback]
    ensures ToldRight(events, told + [last])
  {
    var n := |told|;
    var before, e := events[..n], events[n];
    forall k, i | 0 <= k < |events| && IsCallback(events[k]) && RequestedAt(events[..k], events[k].h, i)
      ensures (told + [last])[k] == [events[i].callback]
    {
      if k < n {
        assert before[..k] == events[..k];
      } else {
        var j := CallbackFindsItsRequest(before, e.h);
        RunsAreSound(before);
        assert i == j;
      }
    }
  }

  /**
   Any run of requests, callbacks and downloads, also with requests made from inside the
   handlers: the object ends as the values do, and every callback finds its request.
   */
  method Replay(events: seq<Event>) returns (client: AsyncClient, told: seq<seq<Callback>>)
    requires IsRun(events)
    ensures fresh(client) && client.Valid() && client.View() == After(events)
    ensures |told| == |events| && ToldRight(events, told)
  {
    if events == [] {
      client := new AsyncClient();
      told := [];
    } else {
      var n := |events| - 1;
      client, told := Replay(events[..n]);
      var last := client.Perform(events[n]);
      ToldRightNext(events, told, last);
      told := told + [last];
    }
  }
}

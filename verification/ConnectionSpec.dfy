/**
 Connection indications: a table from native connections to the wrappers made when
 they were opened, over any wrapper type.
 */
module ConnectionSpec {
  import opened NativeModel

  datatype Indication<W> = Opened(c: Ptr, wrapper: W) | Closed(c: Ptr)

  /**
   Opening a connection that is in the table is an exception that leaves the table alone; closing one
   that is not is ignored.
   */
  function Track<W>(table: map<Ptr, W>, e: Indication<W>): map<Ptr, W> {
    match e
    case Opened(c, wrapper) => if c in table then table else table[c := wrapper]
    case Closed(c) => table - {c}
  }

  function TrackAll<W>(events: seq<Indication<W>>): map<Ptr, W> {
    if events == [] then map[]
    else Track(TrackAll(events[..|events| - 1]), events[|events| - 1])
  }

  /** The native server opens a connection only when it is not open. */
  ghost predicate Alternating<W>(events: seq<Indication<W>>) {
    forall i, j | 0 <= i < j < |events| && events[i].Opened? && events[j].Opened? && events[i].c == events[j].c ::
      exists k :: i < k < j && events[k] == Closed(events[i].c)
  }

  /** `c` was opened at `i` and has not been closed since. */
  ghost predicate OpenSince<W>(events: seq<Indication<W>>, c: Ptr, i: int) {
    && 0 <= i < |events| && events[i].Opened? && events[i].c == c
    && forall k | i < k < |events| :: events[k] != Closed(c)
  }

  lemma AlternatingPrefix<W>(events: seq<Indication<W>>, n: nat)
    requires Alternating(events) && n <= |events|
    ensures Alternating(events[..n])
  {
    forall i, j | 0 <= i < j < n && events[..n][i].Opened? && events[..n][j].Opened? &&
        events[..n][i].c == events[..n][j].c
      ensures exists k :: i < k < j && events[..n][k] == Closed(events[..n][i].c)
    {
      var k :| i < k < j && events[k] == Closed(events[i].c);
      assert events[..n][k] == Closed(events[..n][i].c);
    }
  }

  lemma OpenSinceNext<W>(events: seq<Indication<W>>, c: Ptr, i: int)
    requires events != []
    ensures OpenSince(events, c, i) <==>
            var n := |events| - 1;
            if i == n then events[n].Opened? && events[n].c == c
            else OpenSince(events[..n], c, i) && events[n] != Closed(c)
  {
    var n := |events| - 1;
    assert forall k | 0 <= k < n :: events[..n][k] == events[k];
  }

  /** The table holds exactly the open connections, each with the wrapper made when it was opened last. */
  lemma {:induction false} TableHoldsOpenConnections<W>(events: seq<Indication<W>>, c: Ptr)
    requires Alternating(events)
    ensures c in TrackAll(events) <==> exists i :: OpenSince(events, c, i)
    ensures forall i | OpenSince(events, c, i) :: TrackAll(events)[c] == events[i].wrapper
  {
    if events != [] {
      var n := |events| - 1;
      AlternatingPrefix(events, n);
      TableHoldsOpenConnections(events[..n], c);
      forall i ensures OpenSince(events, c, i) <==>
                       if i == n then events[n].Opened? && events[n].c == c
                       else OpenSince(events[..n], c, i) && events[n] != Closed(c)
      {
        OpenSinceNext(events, c, i);
      }
      if events[n].Opened? && events[n].c == c {
        assert OpenSince(events, c, n);
      }
    }
  }

  /** What is opened next is not in the table. */
  lemma OpensWhatIsNotOpen<W>(events: seq<Indication<W>>, e: Indication<W>)
    requires Alternating(events + [e]) && e.Opened?
    ensures e.c !in TrackAll(events)
  {
    var n := |events|;
    assert (events + [e])[..n] == events && (events + [e])[n] == e;
    AlternatingPrefix(events + [e], n);
    TableHoldsOpenConnections(events, e.c);
    assert forall k | 0 <= k < n :: (events + [e])[k] == events[k];
  }

  /** In any stream, opening a connection that is open leaves the table with the wrapper it has. */
  lemma RepeatedOpenChangesNothing<W>(events: seq<Indication<W>>, c: Ptr, wrapper: W)
    requires c in TrackAll(events)
    ensures TrackAll(events + [Opened(c, wrapper)]) == TrackAll(events)
  {
    assert (events + [Opened(c, wrapper)])[..|events|] == events;
  }
}

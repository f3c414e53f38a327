/**
 The dirty flags of a client-side GOOSE control block and the mask they are sent as.
 */
module GooseControlBlock {

  datatype Field = GoEna | GoID | DatSet | DstAddress

  function Bit(f: Field): bv32 {
    match f
    case GoEna => 1
    case GoID => 2
    case DatSet => 4
    case DstAddress => 32
  }

  function BitIf(on: bool, f: Field): bv32 { if on then Bit(f) else 0 }

  /** The mask for a set of fields: their bits or-ed together. */
  function Mask(fields: set<Field>): bv32 {
    BitIf(GoEna in fields, GoEna) | BitIf(GoID in fields, GoID) |
    BitIf(DatSet in fields, DatSet) | BitIf(DstAddress in fields, DstAddress)
  }

  /** Adding up the bits gives the same word as or-ing them. */
  lemma SumIsUnion(goEna: bool, goID: bool, datSet: bool, dstAddress: bool)
    ensures BitIf(goEna, GoEna) + BitIf(goID, GoID) + BitIf(datSet, DatSet) + BitIf(dstAddress, DstAddress)
            == BitIf(goEna, GoEna) | BitIf(goID, GoID) | BitIf(datSet, DatSet) | BitIf(dstAddress, DstAddress)
  {
  }

  /** The mask says exactly which fields are in the set. */
  lemma MaskIsExact(fields: set<Field>, f: Field)
    ensures f in fields <==> Mask(fields) & Bit(f) != 0
    ensures Mask(fields) & !(1 | 2 | 4 | 32) == 0
  {
  }

  datatype Event = Write(f: Field) | Send(error: bool)

  /** A send forgets the writes, whether it succeeds or not. */
  function Dirty(events: seq<Event>): set<Field> {
    if events == [] then {}
    else
      match events[|events| - 1]
      case Write(f) => Dirty(events[..|events| - 1]) + {f}
      case Send(_) => {}
  }

  /** `f` was written at `i` and nothing was sent since. */
  ghost predicate WrittenSinceSend(events: seq<Event>, f: Field, i: int) {
    0 <= i < |events| && events[i] == Write(f) && forall j | i < j < |events| :: events[j].Write?
  }

  /** Over every run: a field is due exactly when it was written since the last send, successful or failed. */
  lemma {:induction false} DirtyIsWrittenSinceSend(events: seq<Event>, f: Field)
    ensures f in Dirty(events) <==> exists i :: WrittenSinceSend(events, f, i)
  {
    if events != [] {
      var n := |events| - 1;
      var before := events[..n];
      DirtyIsWrittenSinceSend(before, f);
      assert forall j | 0 <= j < n :: before[j] == events[j];
      if events[n] == Write(f) { assert WrittenSinceSend(events, f, n); }
      if events[n].Write? {
        forall i | WrittenSinceSend(before, f, i) ensures WrittenSinceSend(events, f, i) {}
        forall i | WrittenSinceSend(events, f, i) && i < n ensures WrittenSinceSend(before, f, i) {}
      }
    }
  }

  class GooseControlBlock {
    var flagGoEna: bool
    var flagGoID: bool
    var flagDatSet: bool
    var flagDstAddress: bool

    constructor ()
      ensures Due() == Dirty([])
    {
      flagGoEna, flagGoID, flagDatSet, flagDstAddress := false, false, false, false;
    }

    ghost function Due(): set<Field>
      reads this
    {
      set f: Field | IsDue(f)
    }

    predicate IsDue(f: Field)
      reads this
    {
      match f
      case GoEna => flagGoEna
      case GoID => flagGoID
      case DatSet => flagDatSet
      case DstAddress => flagDstAddress
    }

    /** SetGoEna, SetGoID, SetDataSet and SetDstAddress. */
    method SetField(f: Field, ghost events: seq<Event>)
      requires Due() == Dirty(events)
      modifies this
      ensures Due() == Dirty(events + [Write(f)])
    {
      assert (events + [Write(f)])[..|events|] == events;
      match f
      case GoEna => flagGoEna := true;
      case GoID => flagGoID := true;
      case DatSet => flagDatSet := true;
      case DstAddress => flagDstAddress := true;
    }

    method ResetSendFlags()
      modifies this
      ensures Due() == {}
    {
      flagGoEna, flagGoID, flagDatSet, flagDstAddress := false, false, false, false;
    }

    /** `error` is what the native call says; the flags are cleared before it is looked at. */
    method SetCBValues(error: bool, ghost events: seq<Event>) returns (sent: bv32, failed: bool)
      requires Due() == Dirty(events)
      modifies this
      ensures sent == Mask(Dirty(events)) && failed == error
      ensures Due() == Dirty(events + [Send(error)])
    {
      sent := ParametersMask();
      ResetSendFlags();
      failed := error;
    }

    method ParametersMask() returns (parametersMask: bv32)
      ensures parametersMask == Mask(Due())
    {
      parametersMask := 0;
      if flagGoEna { parametersMask := parametersMask + 1; }
      if flagGoID { parametersMask := parametersMask + 2; }
      if flagDatSet { parametersMask := parametersMask + 4; }
      if flagDstAddress { parametersMask := parametersMask + 32; }
      SumIsUnion(flagGoEna, flagGoID, flagDatSet, flagDstAddress);
    }
  }

  /** Every mask that was sent says exactly which fields were written since the send before it. */
  ghost predicate SentRight(events: seq<Event>, sent: seq<bv32>)
    requires |sent| == |events|
  {
    forall n | 0 <= n < |events| && events[n].Send? :: SaysWritten(sent[n], events[..n])
  }

  ghost predicate IsWritten(events: seq<Event>, f: Field) {
    exists i :: WrittenSinceSend(events, f, i)
  }

  /** Bit 0 for GoEna, bit 1 for GoID, bit 2 for DatSet, bit 5 for DstAddress, and no other. */
  ghost predicate SaysWritten(mask: bv32, events: seq<Event>) {
    && (mask & 1 != 0 <==> IsWritten(events, GoEna)) && (mask & 2 != 0 <==> IsWritten(events, GoID))
    && (mask & 4 != 0 <==> IsWritten(events, DatSet)) && (mask & 32 != 0 <==> IsWritten(events, DstAddress))
    && mask & !(1 | 2 | 4 | 32) == 0
  }

  lemma MaskSaysWritten(events: seq<Event>)
    ensures SaysWritten(Mask(Dirty(events)), events)
  {
    forall f: Field ensures Mask(Dirty(events)) & Bit(f) != 0 <==> IsWritten(events, f) {
      MaskIsExact(Dirty(events), f);
      DirtyIsWrittenSinceSend(events, f);
    }
    MaskIsExact(Dirty(events), GoEna);
    assert Mask(Dirty(events)) & Bit(GoEna) != 0 <==> IsWritten(events, GoEna);
    assert Mask(Dirty(events)) & Bit(GoID) != 0 <==> IsWritten(events, GoID);
    assert Mask(Dirty(events)) & Bit(DatSet) != 0 <==> IsWritten(events, DatSet);
    assert Mask(Dirty(events)) & Bit(DstAddress) != 0 <==> IsWritten(events, DstAddress);
  }

  /** Any run of setters and sends on a new block: every mask names exactly the fields written since the last send. */
  method Replay(events: seq<Event>) returns (block: GooseControlBlock, sent: seq<bv32>)
    ensures fresh(block) && block.Due() == Dirty(events)
    ensures |sent| == |events| && SentRight(events, sent)
  {
    block := new GooseControlBlock();
    sent := [];
    for n := 0 to |events|
      invariant fresh(block) && block.Due() == Dirty(events[..n])
      invariant |sent| == n && forall k | 0 <= k < n && events[k].Send? :: SaysWritten(sent[k], events[..k])
    {
      var mask: bv32 := 0;
      match events[n] {
        case Write(f) => block.SetField(f, events[..n]);
        case Send(error) =>
          var failed;
          mask, failed := block.SetCBValues(error, events[..n]);
          MaskSaysWritten(events[..n]);
      }
      assert events[..n] + [events[n]] == events[..n + 1];
      sent := sent + [mask];
    }
    assert events[..|events|] == events;
  }
}

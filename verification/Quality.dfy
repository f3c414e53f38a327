/**
 The quality of a data object: a 16-bit word holding a two-bit validity and twelve
 flags, as laid out in section 6.2 of IEC 61850-7-3, against a plain record.
 */
module Quality {

  datatype Validity = GOOD | RESERVED | INVALID | QUESTIONABLE

  const OVERFLOW: bv16 := 4
  const OUT_OF_RANGE: bv16 := 8
  const BAD_REFERENCE: bv16 := 16
  const OSCILLATORY: bv16 := 32
  const FAILURE: bv16 := 64
  const OLD_DATA: bv16 := 128
  const INCONSISTENT: bv16 := 256
  const INACCURATE: bv16 := 512
  const SUBSTITUTED: bv16 := 1024
  const TEST: bv16 := 2048
  const OPERATOR_BLOCKED: bv16 := 4096
  const DERIVED: bv16 := 8192

  /** A flag is named by its bit. */
  predicate IsFlag(f: bv16) {
    || f == OVERFLOW || f == OUT_OF_RANGE || f == BAD_REFERENCE || f == OSCILLATORY
    || f == FAILURE || f == OLD_DATA || f == INCONSISTENT || f == INACCURATE
    || f == SUBSTITUTED || f == TEST || f == OPERATOR_BLOCKED || f == DERIVED
  }

  /** The other two bits. */
  const UNUSED: bv16 := 0xc000

  datatype Record = Record(validity: Validity, flags: iset<bv16>)

  function Code(q: Validity): bv16 {
    match q
    case GOOD => 0
    case RESERVED => 1
    case INVALID => 2
    case QUESTIONABLE => 3
  }

  /** The cast to the enumeration. */
  function Cast(n: bv16): (q: Validity)
    requires n <= 3
    ensures Code(q) == n
    ensures (q == GOOD <==> n == 0) && (q == RESERVED <==> n == 1)
    ensures (q == INVALID <==> n == 2) && (q == QUESTIONABLE <==> n == 3)
  {
    if n == 0 then GOOD else if n == 1 then RESERVED else if n == 2 then INVALID else QUESTIONABLE
  }

  predicate Has(v: bv16, m: bv16) { v & m != 0 }

  lemma LowBits(v: bv16)
    ensures v & 0x3 <= 3
  {
  }

  ghost function Flags(v: bv16): iset<bv16> {
    iset f | IsFlag(f) && Has(v, f)
  }

  ghost function Decode(v: bv16): Record {
    LowBits(v);
    Record(Cast(v & 0x3), Flags(v))
  }

  // ---- The setters, on words and on records ----

  datatype Op = SetValidity(q: Validity) | SetFlag(f: bv16, on: bool)

  predicate IsSetter(op: Op) { op.SetFlag? ==> IsFlag(op.f) }

  function WithValidity(v: bv16, q: bv16): bv16 {
    (v & 0xfffc) + q
  }

  function WithFlag(v: bv16, f: bv16, on: bool): bv16 {
    if on then v | f else v & !f
  }

  function OnWord(v: bv16, op: Op): bv16 {
    match op
    case SetValidity(q) => WithValidity(v, Code(q))
    case SetFlag(f, on) => WithFlag(v, f, on)
  }

  ghost function OnRecord(r: Record, op: Op): Record {
    match op
    case SetValidity(q) => r.(validity := q)
    case SetFlag(f, on) => r.(flags := if on then r.flags + iset{f} else r.flags - iset{f})
  }

  function AllOnWord(v: bv16, ops: seq<Op>): bv16 {
    if ops == [] then v else OnWord(AllOnWord(v, ops[..|ops| - 1]), ops[|ops| - 1])
  }

  ghost function AllOnRecord(r: Record, ops: seq<Op>): Record {
    if ops == [] then r else OnRecord(AllOnRecord(r, ops[..|ops| - 1]), ops[|ops| - 1])
  }

  // Facts about words, one at a time.

  /** Each flag is its own bit of the word, from the third on. */
  lemma FlagBits(v: bv16)
    ensures (OVERFLOW in Flags(v) <==> v & 0x4 != 0) && (OUT_OF_RANGE in Flags(v) <==> v & 0x8 != 0)
    ensures (BAD_REFERENCE in Flags(v) <==> v & 0x10 != 0) && (OSCILLATORY in Flags(v) <==> v & 0x20 != 0)
    ensures (FAILURE in Flags(v) <==> v & 0x40 != 0) && (OLD_DATA in Flags(v) <==> v & 0x80 != 0)
    ensures (INCONSISTENT in Flags(v) <==> v & 0x100 != 0) && (INACCURATE in Flags(v) <==> v & 0x200 != 0)
    ensures (SUBSTITUTED in Flags(v) <==> v & 0x400 != 0) && (TEST in Flags(v) <==> v & 0x800 != 0)
    ensures (OPERATOR_BLOCKED in Flags(v) <==> v & 0x1000 != 0) && (DERIVED in Flags(v) <==> v & 0x2000 != 0)
  {
  }

  lemma FlagsAreApart(f: bv16, g: bv16)
    requires IsFlag(f) && IsFlag(g) && f != g
    ensures f & g == 0
  {
  }

  lemma FlagsInRange(f: bv16)
    requires IsFlag(f)
    ensures f != 0 && f & 0x3 == 0 && f & UNUSED == 0
  {
  }

  lemma SetSets(v: bv16, m: bv16)
    requires m != 0
    ensures Has(v | m, m)
  {
  }

  lemma ClearClears(v: bv16, m: bv16)
    ensures !Has(v & !m, m)
  {
  }

  lemma SetLeaves(v: bv16, m: bv16, k: bv16)
    requires m & k == 0
    ensures Has(v | m, k) <==> Has(v, k)
  {
  }

  lemma ClearLeaves(v: bv16, m: bv16, k: bv16)
    requires m & k == 0
    ensures Has(v & !m, k) <==> Has(v, k)
  {
  }

  lemma SetKeepsBits(v: bv16, m: bv16, k: bv16)
    requires m & k == 0
    ensures (v | m) & k == v & k
  {
  }

  lemma ClearKeepsBits(v: bv16, m: bv16, k: bv16)
    requires m & k == 0
    ensures (v & !m) & k == v & k
  {
  }

  /** Adding the validity to the cleared word never carries: it is the same as or-ing it in. */
  lemma ValidityNeverCarries(v: bv16, q: bv16)
    requires q <= 3
    ensures (v & 0xfffc) + q == (v & 0xfffc) | q
  {
  }

  lemma LowBitsReplaced(v: bv16, q: bv16)
    requires q <= 3
    ensures ((v & 0xfffc) | q) & 0x3 == q
  {
  }

  lemma HighBitsKept(v: bv16, q: bv16, m: bv16)
    requires q <= 3 && m & 0x3 == 0
    ensures ((v & 0xfffc) | q) & m == v & m
  {
  }

  lemma WithValidityKeepsBits(v: bv16, q: bv16, m: bv16)
    requires q <= 3 && m & 0x3 == 0
    ensures WithValidity(v, q) & m == v & m
  {
    ValidityNeverCarries(v, q);
    HighBitsKept(v, q, m);
  }

  lemma WithValidityHasIt(v: bv16, q: bv16)
    requires q <= 3
    ensures WithValidity(v, q) & 0x3 == q
  {
    ValidityNeverCarries(v, q);
    LowBitsReplaced(v, q);
  }

  lemma WithFlagKeepsBits(v: bv16, f: bv16, on: bool, k: bv16)
    requires f & k == 0
    ensures WithFlag(v, f, on) & k == v & k
  {
    if on { SetKeepsBits(v, f, k); } else { ClearKeepsBits(v, f, k); }
  }

  lemma WithFlagLeaves(v: bv16, f: bv16, on: bool, g: bv16)
    requires f & g == 0
    ensures Has(WithFlag(v, f, on), g) <==> Has(v, g)
  {
    if on { SetLeaves(v, f, g); } else { ClearLeaves(v, f, g); }
  }

  lemma WithFlagHasIt(v: bv16, f: bv16, on: bool)
    requires f != 0
    ensures Has(WithFlag(v, f, on), f) <==> on
  {
    if on { SetSets(v, f); } else { ClearClears(v, f); }
  }

  // The same, flag by flag.

  lemma ValidityKeepsFlags(v: bv16, q: bv16)
    requires q <= 3
    ensures Flags(WithValidity(v, q)) == Flags(v)
  {
    forall g | IsFlag(g) ensures Has(WithValidity(v, q), g) <==> Has(v, g) {
      FlagsInRange(g);
      WithValidityKeepsBits(v, q, g);
    }
  }

  lemma FlagAfter(v: bv16, f: bv16, on: bool, g: bv16)
    requires f != 0 && (f == g || f & g == 0)
    ensures Has(WithFlag(v, f, on), g) <==> if f == g then on else Has(v, g)
  {
    if f == g { WithFlagHasIt(v, f, on); } else { WithFlagLeaves(v, f, on, g); }
  }

  lemma FlagWritten(v: bv16, f: bv16, on: bool, g: bv16)
    requires IsFlag(f) && IsFlag(g)
    ensures Has(WithFlag(v, f, on), g) <==> if f == g then on else Has(v, g)
  {
    FlagsInRange(f);
    if f != g { FlagsAreApart(f, g); }
    FlagAfter(v, f, on, g);
  }

  lemma OneFlagWritten(v: bv16, w: bv16, f: bv16, on: bool)
    requires IsFlag(f)
    requires forall g | IsFlag(g) :: Has(w, g) <==> if f == g then on else Has(v, g)
    ensures Flags(w) == if on then Flags(v) + iset{f} else Flags(v) - iset{f}
  {
  }

  lemma FlagsAfter(v: bv16, f: bv16, on: bool)
    requires IsFlag(f)
    ensures Flags(WithFlag(v, f, on)) == if on then Flags(v) + iset{f} else Flags(v) - iset{f}
  {
    forall g | IsFlag(g) ensures Has(WithFlag(v, f, on), g) <==> if f == g then on else Has(v, g) {
      FlagWritten(v, f, on, g);
    }
    OneFlagWritten(v, WithFlag(v, f, on), f, on);
  }

  lemma SetValidityRefines(v: bv16, q: Validity)
    ensures Decode(WithValidity(v, Code(q))) == Record(q, Decode(v).flags)
    ensures WithValidity(v, Code(q)) & UNUSED == v & UNUSED
  {
    WithValidityHasIt(v, Code(q));
    ValidityKeepsFlags(v, Code(q));
    WithValidityKeepsBits(v, Code(q), UNUSED);
  }

  lemma SetFlagRefines(v: bv16, f: bv16, on: bool)
    requires IsFlag(f)
    ensures Decode(WithFlag(v, f, on)).validity == Decode(v).validity
    ensures WithFlag(v, f, on) & UNUSED == v & UNUSED
  {
    FlagsInRange(f);
    WithFlagKeepsBits(v, f, on, 0x3);
    WithFlagKeepsBits(v, f, on, UNUSED);
  }

  /** A setter changes its own field of the record, nothing else, and never the two unused bits. */
  lemma SetterRefines(v: bv16, op: Op)
    requires IsSetter(op)
    ensures Decode(OnWord(v, op)) == OnRecord(Decode(v), op)
    ensures OnWord(v, op) & UNUSED == v & UNUSED
  {
    match op
    case SetValidity(q) => SetValidityRefines(v, q);
    case SetFlag(f, on) =>
      SetFlagRefines(v, f, on);
      FlagsAfter(v, f, on);
  }

  /** Any sequence of setters on any start value does to the word what it does to the record. */
  lemma {:induction false} SettersRefine(v: bv16, ops: seq<Op>)
    requires forall i | 0 <= i < |ops| :: IsSetter(ops[i])
    ensures Decode(AllOnWord(v, ops)) == AllOnRecord(Decode(v), ops)
    ensures AllOnWord(v, ops) & UNUSED == v & UNUSED
  {
    if ops != [] {
      SettersRefine(v, ops[..|ops| - 1]);
      SetterRefines(AllOnWord(v, ops[..|ops| - 1]), ops[|ops| - 1]);
    }
  }

  lemma BitsDetermineWord(v: bv16, w: bv16)
    requires v & 0x3 == w & 0x3 && v & UNUSED == w & UNUSED
    requires v & 4 == w & 4 && v & 8 == w & 8 && v & 16 == w & 16 && v & 32 == w & 32
    requires v & 64 == w & 64 && v & 128 == w & 128 && v & 256 == w & 256 && v & 512 == w & 512
    requires v & 1024 == w & 1024 && v & 2048 == w & 2048 && v & 4096 == w & 4096 && v & 8192 == w & 8192
    ensures v == w
  {
  }

  lemma OneBit(v: bv16, f: bv16)
    requires IsFlag(f)
    ensures v & f == if Has(v, f) then f else 0
  {
  }

  lemma SameFlag(v: bv16, w: bv16, f: bv16)
    requires IsFlag(f) && Decode(v) == Decode(w)
    ensures v & f == w & f
  {
    OneBit(v, f);
    OneBit(w, f);
    assert f in Decode(v).flags <==> f in Decode(w).flags;
  }

  /** The record and the unused bits are the whole word: nothing is lost and nothing is hidden. */
  lemma RecordIsFaithful(v: bv16, w: bv16)
    requires Decode(v) == Decode(w) && v & UNUSED == w & UNUSED
    ensures v == w
  {
    SameFlag(v, w, OVERFLOW);
    SameFlag(v, w, OUT_OF_RANGE);
    SameFlag(v, w, BAD_REFERENCE);
    SameFlag(v, w, OSCILLATORY);
    SameFlag(v, w, FAILURE);
    SameFlag(v, w, OLD_DATA);
    SameFlag(v, w, INCONSISTENT);
    SameFlag(v, w, INACCURATE);
    SameFlag(v, w, SUBSTITUTED);
    SameFlag(v, w, TEST);
    SameFlag(v, w, OPERATOR_BLOCKED);
    SameFlag(v, w, DERIVED);
    BitsDetermineWord(v, w);
  }

  class Quality {
    var value: bv16

    /** The cast to 16 bits keeps the low ones. */
    constructor (bitStringValue: int)
      ensures value == (bitStringValue % 0x1_0000) as bv16
    {
      value := (bitStringValue % 0x1_0000) as bv16;
    }

    /** The two low bits, and with them what the last SetValidity put there. */
    method GetValidity() returns (q: Validity)
      ensures Code(q) == value & 0x3
      ensures (q == GOOD <==> value & 0x3 == 0) && (q == RESERVED <==> value & 0x3 == 1)
      ensures (q == INVALID <==> value & 0x3 == 2) && (q == QUESTIONABLE <==> value & 0x3 == 3)
      ensures forall v, p | value == OnWord(v, Op.SetValidity(p)) :: q == p
    {
      var qualityVal := value & 0x3;
      LowBits(value);
      q := Cast(qualityVal);
      forall v, p | value == OnWord(v, Op.SetValidity(p)) ensures q == p {
        WithValidityHasIt(v, Code(p));
      }
    }

    method SetValidity(q: Validity)
      modifies this
      ensures value == OnWord(old(value), Op.SetValidity(q))
    {
      value := value & 0xfffc;
      value := value + Code(q);
    }

    /** The flag properties' setters. */
    method SetFlag(f: bv16, on: bool)
      requires IsFlag(f)
      modifies this
      ensures value == OnWord(old(value), Op.SetFlag(f, on))
    {
      if on {
        value := value | f;
      } else {
        value := value & !f;
      }
    }

    /** The flag properties' getters. */
    method Get(f: bv16) returns (on: bool)
      requires IsFlag(f)
      ensures on <==> f in Decode(value).flags
    {
      on := value & f != 0;
    }

    /** Any sequence of setter calls, read back as a record. */
    method SetAll(ops: seq<Op>)
      requires forall i | 0 <= i < |ops| :: IsSetter(ops[i])
      modifies this
      ensures Decode(value) == AllOnRecord(Decode(old(value)), ops) && value & UNUSED == old(value) & UNUSED
    {
      for n := 0 to |ops|
        invariant value == AllOnWord(old(value), ops[..n])
      {
        match ops[n] {
          case SetValidity(q) => SetValidity(q);
          case SetFlag(f, on) => SetFlag(f, on);
        }
        assert ops[..n + 1][..n] == ops[..n];
      }
      assert ops[..|ops|] == ops;
      SettersRefine(old(value), ops);
    }
  }
}

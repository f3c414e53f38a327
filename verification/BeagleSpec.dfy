/**
 The BeagleBone demo server on values: its global variables, what each handler and
 each round of the main loop do to them, and runs of them under any number of clients.
 */
module BeagleSpec {

  type Client = int
  const NO_CLIENT: Client := 0

  datatype Led = LED1 | LED2 | LED3 | LED4

  /** The two delay settings that have a write handler, and any other attribute. */
  datatype Setting = OpDlTmms | RsDlTmms | OtherAttribute

  datatype Leds = Leds(led1: bool, led2: bool, led3: bool, led4: bool)

  /** `opCntStVal` is the published value of the operation counter. */
  datatype Server = Server(
    controllingClient: Client,
    automatic: bool,
    leds: Leds,
    ledOnTimeMs: int,
    ledOffTimeMs: int,
    opCnt: int,
    opCntStVal: int,
    ledStateValue: bool,
    nextLedToggleTime: int)

  const INT32_MIN: int := -0x8000_0000
  const INT32_MAX: int := 0x7fff_ffff

  predicate IsInt32(x: int) { INT32_MIN <= x <= INT32_MAX }

  /** A counter of 32 bits. */
  function Inc32(x: int): int {
    if x == INT32_MAX then INT32_MIN else x + 1
  }

  function Initial(startTime: int): Server {
    Server(NO_CLIENT, true, Leds(false, false, false, false), 1000, 1000, 0, 0, false, startTime + 1000)
  }

  datatype Event =
    | Connect(c: Client)
    | Disconnect(c: Client)
    | Operate(c: Client, led: Led, value: bool, test: bool)
    | ResetCount(c: Client, count: int, test: bool)
    | WriteSetting(c: Client, setting: Setting, delay: int)
    | Tick(now: int)

  // ---- The handlers ----

  function Disconnected(s: Server, c: Client): Server {
    if s.controllingClient == c then s.(controllingClient := NO_CLIENT, automatic := true) else s
  }

  /** A check takes control when nobody has it, even for a test command that is then rejected. */
  function AfterCheck(s: Server, c: Client): Server {
    if s.controllingClient == NO_CLIENT then s.(controllingClient := c, automatic := false) else s
  }

  predicate Accepts(s: Server, c: Client, test: bool) {
    !test && (s.controllingClient == NO_CLIENT || s.controllingClient == c)
  }

  function Switched(leds: Leds, led: Led, value: bool): Leds {
    match led
    case LED1 => leds.(led1 := value)
    case LED2 => leds.(led2 := value)
    case LED3 => leds.(led3 := value)
    case LED4 => leds.(led4 := value)
  }

  function Operated(s: Server, c: Client, led: Led, value: bool, test: bool): Server {
    var checked := AfterCheck(s, c);
    if Accepts(s, c, test) then checked.(leds := Switched(checked.leds, led, value)) else checked
  }

  function CountReset(s: Server, count: int, test: bool): Server {
    if test then s else s.(opCnt := count, opCntStVal := count)
  }

  function SettingWritten(s: Server, setting: Setting, delay: int): Server {
    if delay < 0 then s
    else
      match setting
      case OpDlTmms => s.(ledOffTimeMs := delay)
      case RsDlTmms => s.(ledOnTimeMs := delay)
      case OtherAttribute => s
  }

  predicate Toggles(s: Server, now: int) {
    s.automatic && s.nextLedToggleTime <= now
  }

  function DelayAfterToggle(s: Server): int {
    if s.ledStateValue then s.ledOffTimeMs else s.ledOnTimeMs
  }

  function Ticked(s: Server, now: int): Server {
    if !Toggles(s, now) then s
    else
      var lit := !s.ledStateValue;
      var count := if lit then Inc32(s.opCnt) else s.opCnt;
      s.(nextLedToggleTime := now + DelayAfterToggle(s), ledStateValue := lit, opCnt := count,
         opCntStVal := if lit then count else s.opCntStVal, leds := Leds(lit, lit, lit, s.leds.led4))
  }

  function Step(s: Server, e: Event): Server {
    match e
    case Connect(_) => s
    case Disconnect(c) => Disconnected(s, c)
    case Operate(c, led, value, test) => Operated(s, c, led, value, test)
    case ResetCount(_, count, test) => CountReset(s, count, test)
    case WriteSetting(_, setting, delay) => SettingWritten(s, setting, delay)
    case Tick(now) => Ticked(s, now)
  }

  // ---- Runs ----

  function Connections(open: set<Client>, e: Event): set<Client> {
    match e
    case Connect(c) => open + {c}
    case Disconnect(c) => open - {c}
    case _ => open
  }

  /** Requests come from open connections and carry 32-bit values; the clock may say anything. */
  predicate Possible(open: set<Client>, e: Event) {
    match e
    case Connect(c) => c != NO_CLIENT && c !in open
    case Disconnect(c) => c in open
    case Operate(c, _, _, _) => c in open
    case ResetCount(c, count, _) => c in open && IsInt32(count)
    case WriteSetting(c, _, delay) => c in open && IsInt32(delay)
    case Tick(_) => true
  }

  function Open(events: seq<Event>): set<Client> {
    if events == [] then {} else Connections(Open(events[..|events| - 1]), events[|events| - 1])
  }

  predicate IsRun(events: seq<Event>) {
    events == [] ||
    (IsRun(events[..|events| - 1]) && Possible(Open(events[..|events| - 1]), events[|events| - 1]))
  }

  function After(startTime: int, events: seq<Event>): Server {
    if events == [] then Initial(startTime)
    else Step(After(startTime, events[..|events| - 1]), events[|events| - 1])
  }

  /** The state in which event `i` of a run happens. */
  function Before(startTime: int, events: seq<Event>, i: nat): Server
    requires i <= |events|
  {
    After(startTime, events[..i])
  }

  ghost predicate ModeInvariant(s: Server, open: set<Client>) {
    && (s.automatic <==> s.controllingClient == NO_CLIENT)
    && (s.controllingClient != NO_CLIENT ==> s.controllingClient in open)
    && NO_CLIENT !in open
    && 0 <= s.ledOnTimeMs && 0 <= s.ledOffTimeMs
    && s.opCntStVal == s.opCnt && IsInt32(s.opCnt)
  }

  lemma StepKeepsMode(s: Server, open: set<Client>, e: Event)
    requires ModeInvariant(s, open) && Possible(open, e)
    ensures ModeInvariant(Step(s, e), Connections(open, e))
  {
  }

  /**
   In every run: automatic mode exactly when nobody is in control, only an open connection is in
   control, delays are not negative, and the published count is the count.
   */
  lemma {:induction false} RunsKeepMode(startTime: int, events: seq<Event>)
    requires IsRun(events)
    ensures ModeInvariant(After(startTime, events), Open(events))
  {
    if events != [] {
      var before := events[..|events| - 1];
      RunsKeepMode(startTime, before);
      StepKeepsMode(After(startTime, before), Open(before), events[|events| - 1]);
    }
  }

  lemma {:induction false} RunPrefix(events: seq<Event>, i: nat)
    requires IsRun(events) && i <= |events|
    ensures IsRun(events[..i])
  {
    if i < |events| {
      var before := events[..|events| - 1];
      RunPrefix(before, i);
      assert before[..i] == events[..i];
    } else {
      assert events[..i] == events;
    }
  }

  lemma RunStep(startTime: int, events: seq<Event>, i: nat)
    requires IsRun(events) && i < |events|
    ensures IsRun(events[..i]) && IsRun(events[..i + 1])
    ensures Possible(Open(events[..i]), events[i])
    ensures Before(startTime, events, i + 1) == Step(Before(startTime, events, i), events[i])
    ensures Open(events[..i + 1]) == Connections(Open(events[..i]), events[i])
  {
    RunPrefix(events, i);
    RunPrefix(events, i + 1);
    assert events[..i + 1][..i] == events[..i];
  }

  // ---- Who is in control ----

  predicate AcceptedAt(startTime: int, events: seq<Event>, i: nat, c: Client)
    requires i < |events|
  {
    var s, e := Before(startTime, events, i), events[i];
    e.Operate? && e.c == c && !e.test && (s.controllingClient == NO_CLIENT || s.controllingClient == c)
  }

  lemma ControlStep(s: Server, open: set<Client>, e: Event, c: Client)
    requires ModeInvariant(s, open) && Possible(open, e)
    requires (e.Operate? && e.c == c && (s.controllingClient == NO_CLIENT || s.controllingClient == c)) ||
               (s.controllingClient == c != NO_CLIENT && e != Disconnect(c))
    ensures Step(s, e).controllingClient == c != NO_CLIENT
  {
  }

  lemma {:induction false} InControlUntilDisconnect(startTime: int, events: seq<Event>, c: Client, i: nat, j: nat)
    requires IsRun(events) && i < j <= |events| && AcceptedAt(startTime, events, i, c)
    requires forall k | i < k < j :: events[k] != Disconnect(c)
    ensures Before(startTime, events, j).controllingClient == c != NO_CLIENT
  {
    RunStep(startTime, events, j - 1);
    RunsKeepMode(startTime, events[..j - 1]);
    if i < j - 1 {
      InControlUntilDisconnect(startTime, events, c, i, j - 1);
    }
    ControlStep(Before(startTime, events, j - 1), Open(events[..j - 1]), events[j - 1], c);
  }

  /** Between accepted commands of two different clients the first one has disconnected. */
  lemma ControlIsExclusive(startTime: int, events: seq<Event>, c: Client, d: Client, i: nat, j: nat)
    requires IsRun(events) && i < j < |events| && c != d
    requires AcceptedAt(startTime, events, i, c) && AcceptedAt(startTime, events, j, d)
    ensures exists k :: i < k < j && events[k] == Disconnect(c)
  {
    if forall k | i < k < j :: events[k] != Disconnect(c) {
      InControlUntilDisconnect(startTime, events, c, i, j);
      assert false;
    }
  }

  /** Client `c` takes control with event `k`: it operates, be it for a test, while nobody is in control. */
  predicate TakesControl(startTime: int, events: seq<Event>, k: nat, c: Client)
    requires k < |events|
  {
    events[k].Operate? && events[k].c == c && Before(startTime, events, k).controllingClient == NO_CLIENT
  }

  /** Client `c` took control with event `k` and has not disconnected up to event `to`. */
  ghost predicate HoldsControl(startTime: int, events: seq<Event>, c: Client, k: int, to: nat)
    requires to <= |events|
  {
    0 <= k < to && TakesControl(startTime, events, k, c) && forall j | k < j < to :: events[j] != Disconnect(c)
  }

  /** Who is in control at any point of a run: who took control and has not disconnected since. */
  lemma {:induction false} InControlIffTaken(startTime: int, events: seq<Event>, c: Client, to: nat)
    requires IsRun(events) && to <= |events| && c != NO_CLIENT
    ensures Before(startTime, events, to).controllingClient == c <==>
            exists k :: HoldsControl(startTime, events, c, k, to)
  {
    if to > 0 {
      var n := to - 1;
      InControlIffTaken(startTime, events, c, n);
      RunStep(startTime, events, n);
      RunsKeepMode(startTime, events[..n]);
      if TakesControl(startTime, events, n, c) { assert HoldsControl(startTime, events, c, n, to); }
      forall k | k != n
        ensures HoldsControl(startTime, events, c, k, to) <==>
                HoldsControl(startTime, events, c, k, n) && events[n] != Disconnect(c)
      {
      }
    }
  }

  // ---- Settings ----

  predicate Sets(e: Event, setting: Setting) { e.WriteSetting? && e.setting == setting && 0 <= e.delay }

  /** Event `k` is the last of the first `to` that sets the setting. */
  ghost predicate LastSet(events: seq<Event>, setting: Setting, k: int, to: nat)
    requires to <= |events|
  {
    0 <= k < to && Sets(events[k], setting) && forall j | k < j < to :: !Sets(events[j], setting)
  }

  ghost predicate NeverSet(events: seq<Event>, setting: Setting, to: nat)
    requires to <= |events|
  {
    forall k | 0 <= k < to :: !Sets(events[k], setting)
  }

  lemma SettingStep(s: Server, e: Event)
    ensures Step(s, e).ledOffTimeMs == if Sets(e, OpDlTmms) then e.delay else s.ledOffTimeMs
    ensures Step(s, e).ledOnTimeMs == if Sets(e, RsDlTmms) then e.delay else s.ledOnTimeMs
  {
  }

  lemma {:induction false} OffTimeIsLastWritten(startTime: int, events: seq<Event>, k: int, to: nat)
    requires IsRun(events) && to <= |events| && (LastSet(events, OpDlTmms, k, to) || NeverSet(events, OpDlTmms, to))
    ensures Before(startTime, events, to).ledOffTimeMs ==
            if LastSet(events, OpDlTmms, k, to) then events[k].delay else 1000
  {
    if to == 0 {
      assert events[..0] == [];
    } else {
      if !Sets(events[to - 1], OpDlTmms) { OffTimeIsLastWritten(startTime, events, k, to - 1); }
      RunStep(startTime, events, to - 1);
      SettingStep(Before(startTime, events, to - 1), events[to - 1]);
    }
  }

  lemma {:induction false} OnTimeIsLastWritten(startTime: int, events: seq<Event>, k: int, to: nat)
    requires IsRun(events) && to <= |events| && (LastSet(events, RsDlTmms, k, to) || NeverSet(events, RsDlTmms, to))
    ensures Before(startTime, events, to).ledOnTimeMs ==
            if LastSet(events, RsDlTmms, k, to) then events[k].delay else 1000
  {
    if to == 0 {
      assert events[..0] == [];
    } else {
      if !Sets(events[to - 1], RsDlTmms) { OnTimeIsLastWritten(startTime, events, k, to - 1); }
      RunStep(startTime, events, to - 1);
      SettingStep(Before(startTime, events, to - 1), events[to - 1]);
    }
  }

  /** OpDlTmms is the time off and RsDlTmms the time on: each is what was written last, and 1000 before. */
  lemma SettingsHoldLastWrites(startTime: int, events: seq<Event>, to: nat)
    requires IsRun(events) && to <= |events|
    ensures forall k | LastSet(events, OpDlTmms, k, to) ::
              Before(startTime, events, to).ledOffTimeMs == events[k].delay
    ensures forall k | LastSet(events, RsDlTmms, k, to) ::
              Before(startTime, events, to).ledOnTimeMs == events[k].delay
    ensures NeverSet(events, OpDlTmms, to) ==> Before(startTime, events, to).ledOffTimeMs == 1000
    ensures NeverSet(events, RsDlTmms, to) ==> Before(startTime, events, to).ledOnTimeMs == 1000
  {
    forall k | LastSet(events, OpDlTmms, k, to)
      ensures Before(startTime, events, to).ledOffTimeMs == events[k].delay
    {
      OffTimeIsLastWritten(startTime, events, k, to);
    }
    forall k | LastSet(events, RsDlTmms, k, to)
      ensures Before(startTime, events, to).ledOnTimeMs == events[k].delay
    {
      OnTimeIsLastWritten(startTime, events, k, to);
    }
    if NeverSet(events, OpDlTmms, to) { OffTimeIsLastWritten(startTime, events, -1, to); }
    if NeverSet(events, RsDlTmms, to) { OnTimeIsLastWritten(startTime, events, -1, to); }
  }

  // ---- Automatic toggles ----

  /** A round of the main loop that is due: nobody is in control and the time of the next toggle has come. */
  predicate IsDue(s: Server, e: Event) {
    e.Tick? && s.controllingClient == NO_CLIENT && s.nextLedToggleTime <= e.now
  }

  /**
   A round that comes when nobody is in control and the next toggle is due flips the automatic state, sets the
   next toggle to the on-time after turning on and to the off-time after turning off, and has LEDs 1 to 3 show it.
   */
  lemma DueRoundToggles(startTime: int, events: seq<Event>, k: nat)
    requires IsRun(events) && k < |events| && events[k].Tick?
    requires Before(startTime, events, k).controllingClient == NO_CLIENT
    requires Before(startTime, events, k).nextLedToggleTime <= events[k].now
    ensures var s, z := Before(startTime, events, k), Before(startTime, events, k + 1);
            && z.ledStateValue == !s.ledStateValue
            && z.nextLedToggleTime == events[k].now + (if z.ledStateValue then s.ledOnTimeMs else s.ledOffTimeMs)
            && z.leds == Leds(z.ledStateValue, z.ledStateValue, z.ledStateValue, s.leds.led4)
  {
    RunStep(startTime, events, k);
    RunsKeepMode(startTime, events[..k]);
  }

  /** Nothing else touches the automatic state and the time of the next toggle. */
  lemma OnlyDueRoundsToggle(startTime: int, events: seq<Event>, k: nat)
    requires IsRun(events) && k < |events|
    requires !(events[k].Tick? && Before(startTime, events, k).controllingClient == NO_CLIENT &&
               Before(startTime, events, k).nextLedToggleTime <= events[k].now)
    ensures Before(startTime, events, k + 1).ledStateValue == Before(startTime, events, k).ledStateValue
    ensures Before(startTime, events, k + 1).nextLedToggleTime == Before(startTime, events, k).nextLedToggleTime
  {
    RunStep(startTime, events, k);
    RunsKeepMode(startTime, events[..k]);
  }

  /** How many of the first `to` events are due rounds. */
  function DueRounds(startTime: int, events: seq<Event>, to: nat): nat
    requires to <= |events|
  {
    if to == 0 then 0
    else DueRounds(startTime, events, to - 1) +
         if IsDue(Before(startTime, events, to - 1), events[to - 1]) then 1 else 0
  }

  /** The automatic state is on exactly after an odd number of due rounds. */
  lemma {:induction false} OnAfterOddRounds(startTime: int, events: seq<Event>, to: nat)
    requires IsRun(events) && to <= |events|
    ensures Before(startTime, events, to).ledStateValue <==> DueRounds(startTime, events, to) % 2 == 1
  {
    if to == 0 {
      assert events[..0] == [];
    } else {
      OnAfterOddRounds(startTime, events, to - 1);
      if IsDue(Before(startTime, events, to - 1), events[to - 1]) {
        DueRoundToggles(startTime, events, to - 1);
      } else {
        OnlyDueRoundsToggle(startTime, events, to - 1);
      }
    }
  }

  /** Toggles in the order they happen: when, to what, and the delay in force then. */
  datatype Toggle = Toggle(time: int, lit: bool, delay: int)

  function ToggleHistory(startTime: int, events: seq<Event>): seq<Toggle> {
    if events == [] then []
    else
      var before := events[..|events| - 1];
      var s := After(startTime, before);
      var e := events[|events| - 1];
      if IsDue(s, e)
      then
        var delay := if s.ledStateValue then s.ledOffTimeMs else s.ledOnTimeMs;
        ToggleHistory(startTime, before) + [Toggle(e.now, !s.ledStateValue, delay)]
      else ToggleHistory(startTime, before)
  }

  ghost predicate Spaced(startTime: int, history: seq<Toggle>) {
    && (forall i | 0 <= i < |history| :: 0 <= history[i].delay)
    && (forall i | 0 < i < |history| ::
         history[i].lit == !history[i - 1].lit && history[i - 1].time + history[i - 1].delay <= history[i].time)
    && (history != [] ==> history[0].lit && startTime + 1000 <= history[0].time)
  }

  /**
   The history fits the state it led to: the automatic state is where the last toggle went, the next
   one is due a delay after it.
   */
  ghost predicate Fits(startTime: int, history: seq<Toggle>, s: Server) {
    && Spaced(startTime, history)
    && if history == [] then !s.ledStateValue && s.nextLedToggleTime == startTime + 1000
       else
         var last := history[|history| - 1];
         s.ledStateValue == last.lit && s.nextLedToggleTime == last.time + last.delay
  }

  /** Toggles alternate, on first, and each comes no sooner than the delay in force at the one before allows. */
  lemma {:induction false} TogglesAlternateAndWait(startTime: int, events: seq<Event>)
    requires IsRun(events)
    ensures Fits(startTime, ToggleHistory(startTime, events), After(startTime, events))
  {
    if events != [] {
      var n := |events| - 1;
      TogglesAlternateAndWait(startTime, events[..n]);
      RunsKeepMode(startTime, events[..n]);
      assert events[..n + 1] == events;
      if IsDue(Before(startTime, events, n), events[n]) {
        DueRoundToggles(startTime, events, n);
      } else {
        OnlyDueRoundsToggle(startTime, events, n);
      }
    }
  }

  /** The time of the next toggle never moves back, whatever the clock does. */
  lemma {:induction false} NextToggleNeverDecreases(startTime: int, events: seq<Event>, i: nat, j: nat)
    requires IsRun(events) && i <= j <= |events|
    ensures Before(startTime, events, i).nextLedToggleTime <= Before(startTime, events, j).nextLedToggleTime
  {
    if i < j {
      NextToggleNeverDecreases(startTime, events, i, j - 1);
      RunPrefix(events, j - 1);
      RunsKeepMode(startTime, events[..j - 1]);
      if IsDue(Before(startTime, events, j - 1), events[j - 1]) {
        DueRoundToggles(startTime, events, j - 1);
      } else {
        OnlyDueRoundsToggle(startTime, events, j - 1);
      }
    }
  }

  // ---- The operation counter ----

  predicate TurnsOnAt(startTime: int, events: seq<Event>, k: nat)
    requires k < |events|
  {
    IsDue(Before(startTime, events, k), events[k]) && !Before(startTime, events, k).ledStateValue
  }

  /** How many automatic toggles from off to on happen at positions `from` to `to`. */
  function TurnOns(startTime: int, events: seq<Event>, from: nat, to: nat): nat
    requires from <= to <= |events|
  {
    if from == to then 0
    else TurnOns(startTime, events, from, to - 1) + if TurnsOnAt(startTime, events, to - 1) then 1 else 0
  }

  predicate Resets(e: Event) { e.ResetCount? && !e.test }

  /** The 32-bit value congruent to `x`. */
  function Wrap32(x: int): (r: int)
    ensures IsInt32(r) && (r - x) % 0x1_0000_0000 == 0
    ensures IsInt32(x) ==> r == x
  {
    (x - INT32_MIN) % 0x1_0000_0000 + INT32_MIN
  }

  lemma IncIsWrapped(x: int)
    ensures Inc32(Wrap32(x)) == Wrap32(x + 1)
  {
  }

  lemma CountStep(s: Server, e: Event)
    requires !Resets(e) && (s.automatic <==> s.controllingClient == NO_CLIENT)
    ensures Step(s, e).opCnt == if IsDue(s, e) && !s.ledStateValue then Inc32(s.opCnt) else s.opCnt
  {
  }

  lemma CountNext(startTime: int, events: seq<Event>, k: nat)
    requires IsRun(events) && k < |events| && !Resets(events[k])
    ensures Before(startTime, events, k + 1).opCnt ==
            if TurnsOnAt(startTime, events, k)
                then Inc32(Before(startTime, events, k).opCnt) else Before(startTime, events, k).opCnt
  {
    RunStep(startTime, events, k);
    RunsKeepMode(startTime, events[..k]);
    CountStep(Before(startTime, events, k), events[k]);
  }

  lemma CountFits(startTime: int, events: seq<Event>, k: nat)
    requires IsRun(events) && k <= |events|
    ensures IsInt32(Before(startTime, events, k).opCnt)
  {
    RunPrefix(events, k);
    RunsKeepMode(startTime, events[..k]);
  }

  lemma {:induction false} CountFrom(startTime: int, events: seq<Event>, from: nat, to: nat)
    requires IsRun(events) && from <= to <= |events|
    requires forall k | from <= k < to :: !Resets(events[k])
    ensures Before(startTime, events, to).opCnt ==
              Wrap32(Before(startTime, events, from).opCnt + TurnOns(startTime, events, from, to))
  {
    if from == to {
      CountFits(startTime, events, to);
    } else {
      CountFrom(startTime, events, from, to - 1);
      CountNext(startTime, events, to - 1);
      IncIsWrapped(Before(startTime, events, from).opCnt + TurnOns(startTime, events, from, to - 1));
    }
  }

  /** After a reset the count is the value it was reset to plus the turn-ons since, in 32 bits. */
  lemma CountAfterReset(startTime: int, events: seq<Event>, r: nat)
    requires IsRun(events) && r < |events| && Resets(events[r])
    requires forall k | r < k < |events| :: !Resets(events[k])
    ensures After(startTime, events).opCnt == Wrap32(events[r].count + TurnOns(startTime, events, r + 1, |events|))
  {
    assert events[..|events|] == events;
    RunStep(startTime, events, r);
    assert Before(startTime, events, r + 1).opCnt == events[r].count;
    CountFrom(startTime, events, r + 1, |events|);
  }

  /** Without a reset the count is the number of turn-ons, in 32 bits. */
  lemma CountWithoutReset(startTime: int, events: seq<Event>)
    requires IsRun(events) && forall k | 0 <= k < |events| :: !Resets(events[k])
    ensures After(startTime, events).opCnt == Wrap32(TurnOns(startTime, events, 0, |events|))
  {
    assert events[..|events|] == events && events[..0] == [];
    CountFrom(startTime, events, 0, |events|);
  }

  // ---- The LEDs in automatic operation ----

  predicate Commands(startTime: int, events: seq<Event>, k: nat)
    requires k < |events|
  {
    events[k].Operate? && events[k].led != LED4 && AcceptedAt(startTime, events, k, events[k].c)
  }

  predicate TogglesAt(startTime: int, events: seq<Event>, k: nat)
    requires k < |events|
  {
    IsDue(Before(startTime, events, k), events[k])
  }

  predicate ShowsAutomaticState(s: Server) { s.leds.led1 == s.leds.led2 == s.leds.led3 == s.ledStateValue }

  lemma LedStep(s: Server, e: Event)
    requires s.automatic <==> s.controllingClient == NO_CLIENT
    ensures IsDue(s, e) ==> ShowsAutomaticState(Step(s, e))
    ensures ShowsAutomaticState(s) && !(e.Operate? && e.led != LED4 && Accepts(s, e.c, e.test)) ==>
              ShowsAutomaticState(Step(s, e))
  {
  }

  /**
   LEDs 1 to 3 show the automatic state as long as no command on them was accepted since the start or
   since a toggle.
   */
  lemma {:induction false} LedsShowAutomaticState(startTime: int, events: seq<Event>, from: nat, to: nat)
    requires IsRun(events) && from <= to <= |events|
    requires from == 0 || TogglesAt(startTime, events, from - 1)
    requires forall k | from <= k < to :: !Commands(startTime, events, k)
    ensures ShowsAutomaticState(Before(startTime, events, to))
  {
    if from < to {
      LedsShowAutomaticState(startTime, events, from, to - 1);
      RunStep(startTime, events, to - 1);
      RunsKeepMode(startTime, events[..to - 1]);
      assert !Commands(startTime, events, to - 1);
      LedStep(Before(startTime, events, to - 1), events[to - 1]);
    } else if from > 0 {
      RunStep(startTime, events, from - 1);
      RunsKeepMode(startTime, events[..from - 1]);
      LedStep(Before(startTime, events, from - 1), events[from - 1]);
    } else {
      assert events[..0] == [];
    }
  }

  // ---- The LEDs in any operation ----

  function IsLit(leds: Leds, led: Led): bool {
    match led
    case LED1 => leds.led1
    case LED2 => leds.led2
    case LED3 => leds.led3
    case LED4 => leds.led4
  }

  /**
   An event puts the LED to `value`: a command for it that is no test, of a client in control or taking it, or,
   for LEDs 1 to 3, a due round.
   */
  predicate Puts(s: Server, e: Event, led: Led, value: bool) {
    || (e.Operate? && e.led == led && e.value == value && !e.test &&
        (s.controllingClient == NO_CLIENT || s.controllingClient == e.c))
    || (led != LED4 && IsDue(s, e) && value == !s.ledStateValue)
  }

  lemma PutStep(s: Server, e: Event, led: Led)
    requires s.automatic <==> s.controllingClient == NO_CLIENT
    ensures IsLit(Step(s, e).leds, led) ==
            if Puts(s, e, led, true) then true else if Puts(s, e, led, false) then false else IsLit(s.leds, led)
  {
  }

  predicate PutsAt(startTime: int, events: seq<Event>, k: nat, led: Led, value: bool)
    requires k < |events|
  {
    Puts(Before(startTime, events, k), events[k], led, value)
  }

  /** Event `k` put the LED on and nothing up to event `to` put it off. */
  ghost predicate OnSince(startTime: int, events: seq<Event>, led: Led, k: int, to: nat)
    requires to <= |events|
  {
    && 0 <= k < to && PutsAt(startTime, events, k, led, true)
    && forall j | k < j < to :: !PutsAt(startTime, events, j, led, false)
  }

  /** At any point of a run a LED is lit exactly when something put it on and nothing later put it off. */
  lemma {:induction false} LitIffPutOn(startTime: int, events: seq<Event>, led: Led, to: nat)
    requires IsRun(events) && to <= |events|
    ensures IsLit(Before(startTime, events, to).leds, led) <==> exists k :: OnSince(startTime, events, led, k, to)
  {
    if to == 0 {
      assert events[..0] == [];
    } else {
      var n := to - 1;
      LitIffPutOn(startTime, events, led, n);
      RunStep(startTime, events, n);
      RunsKeepMode(startTime, events[..n]);
      PutStep(Before(startTime, events, n), events[n], led);
      if PutsAt(startTime, events, n, led, true) { assert OnSince(startTime, events, led, n, to); }
      forall k | k != n
        ensures OnSince(startTime, events, led, k, to) <==>
                OnSince(startTime, events, led, k, n) && !PutsAt(startTime, events, n, led, false)
      {
      }
    }
  }
}

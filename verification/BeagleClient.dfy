/**
 The LED-sequencing client running against the demo server while other clients come
 and go: the client's program as positions between its commands, every command as
 one step of the server, and steps of everybody else in between.
 */
module BeagleClient {
  import opened BeagleSpec

  /** Where the client is: before one of its commands, asleep, or on its way out. */
  datatype Position =
    | Clear1 | Clear2 | Clear4                      // before the loop
    | Off3 | On1 | Sleep1 | Off1 | On2 | Sleep2     // `Off3` is the head of the loop
    | Off2 | On3 | Sleep3 | Toggle4
    | Failed

  /** `online` says that the server still has the connection the client was given. */
  datatype System = System(server: Server, open: set<Client>, me: Client, at: Position, online: bool, led4State: bool)

  predicate Sleeping(at: Position) { at in {Sleep1, Sleep2, Sleep3} }

  /** The command at a position: which LED and which value. */
  function Command(y: System): (Led, bool)
    requires !Sleeping(y.at) && y.at != Failed
  {
    match y.at
    case Clear1 => (LED1, false)
    case Clear2 => (LED2, false)
    case Clear4 => (LED4, false)
    case Off3 => (LED3, false)
    case On1 => (LED1, true)
    case Off1 => (LED1, false)
    case On2 => (LED2, true)
    case Off2 => (LED2, false)
    case On3 => (LED3, true)
    case Toggle4 => (LED4, !y.led4State)
  }

  function Next(at: Position): Position {
    match at
    case Clear1 => Clear2
    case Clear2 => Clear4
    case Clear4 => Off3
    case Off3 => On1
    case On1 => Sleep1
    case Sleep1 => Off1
    case Off1 => On2
    case On2 => Sleep2
    case Sleep2 => Off2
    case Off2 => On3
    case On3 => Sleep3
    case Sleep3 => Toggle4
    case Toggle4 => Off3
    case Failed => Failed
  }

  /** A command is answered, or it or its response gets lost, which the client sees as a failure. */
  datatype Fate = Answered | RequestLost | ResponseLost

  datatype Move =
    | Others(e: Event)
    | Act(fate: Fate)
    | Wake
    | Close

  /** While the client is online, others do not use its connection, but it may break at any time. */
  predicate Can(y: System, m: Move) {
    match m
    case Others(e) => Possible(y.open, e) && (y.online && !e.Tick? && e.c == y.me ==> e.Disconnect?)
    case Act(fate) => !Sleeping(y.at) && y.at != Failed && (fate.Answered? || fate.ResponseLost? ==> y.online)
    case Wake => Sleeping(y.at)
    case Close => y.at == Failed && y.online
  }

  function Execute(y: System): Server
    requires !Sleeping(y.at) && y.at != Failed
  {
    var (led, value) := Command(y);
    Operated(y.server, y.me, led, value, false)
  }

  function Moved(y: System, m: Move): System
    requires Can(y, m)
  {
    match m
    case Others(e) =>
      y.(server := Step(y.server, e), open := Connections(y.open, e), online := y.online && e != Disconnect(y.me))
    case Act(RequestLost) => y.(at := Failed)
    case Act(ResponseLost) => y.(server := Execute(y), at := Failed)
    case Act(Answered) =>
      if Accepts(y.server, y.me, false)
      then y.(server := Execute(y), at := Next(y.at),
              led4State := if y.at == Toggle4 then !y.led4State else y.led4State)
      else y.(server := Execute(y), at := Failed)
    case Wake => y.(at := Next(y.at))
    case Close =>
      y.(server := Disconnected(y.server, y.me), open := y.open - {y.me}, online := false)
  }

  /** The client begins when its connection is open, at any point of the server's life. */
  ghost predicate Begins(y: System) {
    && ModeInvariant(y.server, y.open) && y.me in y.open && y.online && y.at == Clear1 && !y.led4State
  }

  /** Every run of the server with the client's connection open is a place to begin. */
  lemma BeginsAfterAnyRun(startTime: int, events: seq<Event>, me: Client)
    requires IsRun(events) && me in Open(events)
    ensures Begins(System(After(startTime, events), Open(events), me, Clear1, true, false))
  {
    RunsKeepMode(startTime, events);
  }

  predicate Runs(y: System, moves: seq<Move>)
    decreases |moves|, 0
  {
    moves == [] || (Runs(y, moves[..|moves| - 1]) && Can(Reached(y, moves[..|moves| - 1]), moves[|moves| - 1]))
  }

  function Reached(y: System, moves: seq<Move>): System
    requires Runs(y, moves)
    decreases |moves|, 1
  {
    if moves == [] then y else Moved(Reached(y, moves[..|moves| - 1]), moves[|moves| - 1])
  }

  /** Of the first three LEDs exactly the given one is on. */
  predicate Only(leds: Leds, k: int) {
    leds.led1 == (k == 1) && leds.led2 == (k == 2) && leds.led3 == (k == 3)
  }

  /** What the LEDs show at each position, once the client is in control. */
  predicate LedsAt(y: System) {
    var leds := y.server.leds;
    match y.at
    case Clear1 => true
    case Clear2 => !leds.led1
    case Clear4 => !leds.led1 && !leds.led2
    case Off3 => !leds.led1 && !leds.led2
    case On1 => Only(leds, 0)
    case Sleep1 => Only(leds, 1)
    case Off1 => Only(leds, 1)
    case On2 => Only(leds, 0)
    case Sleep2 => Only(leds, 2)
    case Off2 => Only(leds, 2)
    case On3 => Only(leds, 0)
    case Sleep3 => Only(leds, 3)
    case Toggle4 => Only(leds, 3)
    case Failed => true
  }

  predicate InLoop(at: Position) { at !in {Clear1, Clear2, Clear4, Failed} }

  ghost predicate Sequencing(y: System) {
    && ModeInvariant(y.server, y.open)
    && (y.online ==> y.me in y.open)
    && (y.at in {Clear1, Clear2, Clear4} ==> !y.led4State)
    && (y.online && y.at != Clear1 && y.at != Failed ==>
          && y.server.controllingClient == y.me && LedsAt(y)
          && (InLoop(y.at) ==> y.server.leds.led4 == y.led4State))
  }

  /** Nobody else can touch the LEDs while a client is in control. */
  lemma OthersCannotSwitch(s: Server, open: set<Client>, me: Client, e: Event)
    requires ModeInvariant(s, open) && s.controllingClient == me && me in open && Possible(open, e)
    requires !e.Tick? ==> e.c != me
    ensures Step(s, e).leds == s.leds && Step(s, e).controllingClient == me
  {
  }

  lemma ActKeepsSequencing(y: System)
    requires Sequencing(y) && Can(y, Act(Answered))
    ensures Sequencing(Moved(y, Act(Answered)))
  {
    var (led, value) := Command(y);
    StepKeepsMode(y.server, y.open, Operate(y.me, led, value, false));
  }

  lemma MoveKeepsSequencing(y: System, m: Move)
    requires Sequencing(y) && Can(y, m)
    ensures Sequencing(Moved(y, m))
  {
    match m
    case Others(e) =>
      StepKeepsMode(y.server, y.open, e);
      if y.online && e != Disconnect(y.me) && y.server.controllingClient == y.me {
        OthersCannotSwitch(y.server, y.open, y.me, e);
      }
    case Act(fate) =>
      if fate.Answered? {
        ActKeepsSequencing(y);
      } else if fate.ResponseLost? {
        var (led, value) := Command(y);
        StepKeepsMode(y.server, y.open, Operate(y.me, led, value, false));
      }
    case Wake =>
    case Close =>
      StepKeepsMode(y.server, y.open, Disconnect(y.me));
  }

  lemma {:induction false} RunsKeepSequencing(y: System, moves: seq<Move>)
    requires Begins(y) && Runs(y, moves)
    ensures Sequencing(Reached(y, moves))
  {
    if moves != [] {
      var before := moves[..|moves| - 1];
      RunsKeepSequencing(y, before);
      MoveKeepsSequencing(Reached(y, before), moves[|moves| - 1]);
    }
  }

  /**
   As long as the client is online: asleep it has exactly its LED on, and at the loop head
   `led4State` is what LED4 shows.
   */
  lemma SleepsWithOneLed(y: System, moves: seq<Move>)
    requires Begins(y) && Runs(y, moves)
    ensures var z := Reached(y, moves);
            z.online ==>
              && (z.at == Sleep1 ==> Only(z.server.leds, 1))
              && (z.at == Sleep2 ==> Only(z.server.leds, 2))
              && (z.at == Sleep3 ==> Only(z.server.leds, 3))
              && (z.at == Off3 ==> z.server.leds.led4 == z.led4State)
  {
    RunsKeepSequencing(y, moves);
  }

  /** After the first accepted command, an answered command is never a rejection: the client fails only by loss. */
  lemma NeverRejectedLater(y: System, moves: seq<Move>)
    requires Begins(y) && Runs(y, moves)
    requires Can(Reached(y, moves), Act(Answered)) && Reached(y, moves).at != Clear1
    ensures Moved(Reached(y, moves), Act(Answered)).at == Next(Reached(y, moves).at) != Failed
  {
    RunsKeepSequencing(y, moves);
  }

  /** What the LEDs show at the end of each sleep of the run that the client is online for. */
  function Shown(y: System, moves: seq<Move>): seq<Leds>
    requires Runs(y, moves)
    decreases |moves|
  {
    if moves == [] then []
    else
      var before := moves[..|moves| - 1];
      var z := Reached(y, before);
      if moves[|moves| - 1].Wake? && z.online
      then Shown(y, before) + [z.server.leds]
      else Shown(y, before)
  }

  /** How many of the sleeps of the current round are over at a position. */
  function SleepsDone(at: Position): int {
    match at
    case Off1 => 1
    case On2 => 1
    case Sleep2 => 1
    case Off2 => 2
    case On3 => 2
    case Sleep3 => 2
    case _ => 0
  }

  /** The `i`-th sleep, from 0, shows LED 1, 2 or 3 in turn. */
  predicate InTurn(leds: Leds, i: nat) { Only(leds, i % 3 + 1) }

  /**
   Sleep after sleep, the LEDs show 1, 2, 3, 1, 2, 3 and so on, whatever the others do, until the
   client goes offline.
   */
  lemma {:induction false} ShownInOrder(y: System, moves: seq<Move>)
    requires Begins(y) && Runs(y, moves)
    ensures forall i | 0 <= i < |Shown(y, moves)| :: InTurn(Shown(y, moves)[i], i)
    ensures Reached(y, moves).online && Reached(y, moves).at != Failed ==>
              |Shown(y, moves)| % 3 == SleepsDone(Reached(y, moves).at)
  {
    if moves != [] {
      var before := moves[..|moves| - 1];
      var z, m := Reached(y, before), moves[|moves| - 1];
      ShownInOrder(y, before);
      RunsKeepSequencing(y, before);
      if m.Wake? && z.online {
        WakeShows(z, |Shown(y, before)|);
      }
    }
  }

  lemma WakeShows(z: System, n: nat)
    requires Sequencing(z) && z.online && Sleeping(z.at) && n % 3 == SleepsDone(z.at)
    ensures InTurn(z.server.leds, n)
    ensures (n + 1) % 3 == SleepsDone(Next(z.at))
  {
  }

  /** The rounds that LED4 has seen: the third sleep of a round is over before its command comes. */
  function RoundsSeen(at: Position, sleeps: nat): int {
    if at == Toggle4 then sleeps / 3 - 1 else sleeps / 3
  }

  lemma Led4Step(z: System, m: Move, n: nat, n': nat)
    requires Sequencing(z) && Can(z, m) && z.online && Moved(z, m).online && InLoop(Moved(z, m).at)
    requires n % 3 == SleepsDone(z.at) && n' == if m.Wake? then n + 1 else n
    requires InLoop(z.at) ==> z.led4State == (RoundsSeen(z.at, n) % 2 == 1)
    requires !InLoop(z.at) ==> n == 0
    ensures Moved(z, m).led4State == (RoundsSeen(Moved(z, m).at, n') % 2 == 1)
  {
  }

  /** Before the loop nothing has been shown. */
  lemma {:induction false} NothingShownBeforeLoop(y: System, moves: seq<Move>)
    requires Begins(y) && Runs(y, moves) && Reached(y, moves).at in {Clear1, Clear2, Clear4}
    ensures Shown(y, moves) == []
  {
    if moves != [] { NothingShownBeforeLoop(y, moves[..|moves| - 1]); }
  }

  lemma {:induction false} Led4FollowsRounds(y: System, moves: seq<Move>)
    requires Begins(y) && Runs(y, moves)
    ensures var z := Reached(y, moves);
            z.online && InLoop(z.at) ==> z.led4State == (RoundsSeen(z.at, |Shown(y, moves)|) % 2 == 1)
  {
    if moves != [] {
      var before := moves[..|moves| - 1];
      var z, m := Reached(y, before), moves[|moves| - 1];
      Led4FollowsRounds(y, before);
      RunsKeepSequencing(y, before);
      ShownInOrder(y, before);
      if Moved(z, m).online && InLoop(Moved(z, m).at) {
        if !InLoop(z.at) { NothingShownBeforeLoop(y, before); }
        Led4Step(z, m, |Shown(y, before)|, |Shown(y, moves)|);
      }
    }
  }

  /** At the loop head LED4 is lit after an odd number of rounds and dark after an even number. */
  lemma Led4AlternatesByRound(y: System, moves: seq<Move>)
    requires Begins(y) && Runs(y, moves) && Reached(y, moves).online && Reached(y, moves).at == Off3
    ensures Reached(y, moves).server.leds.led4 <==> (|Shown(y, moves)| / 3) % 2 == 1
  {
    RunsKeepSequencing(y, moves);
    Led4FollowsRounds(y, moves);
  }

  // ---- The client's program ----

  /** What the client does: a command that reaches the server, or a sleep. */
  datatype Deed = Sent(led: Led, value: bool) | Slept

  function DeedOf(z: System, m: Move): seq<Deed>
    requires Can(z, m)
  {
    if m.Wake? then [Slept]
    else if m.Act? && !m.fate.RequestLost? then [Sent(Command(z).0, Command(z).1)]
    else []
  }

  function Deeds(y: System, moves: seq<Move>): seq<Deed>
    requires Runs(y, moves)
    decreases |moves|
  {
    if moves == [] then []
    else
      var before := moves[..|moves| - 1];
      Deeds(y, before) + DeedOf(Reached(y, before), moves[|moves| - 1])
  }

  /** The program as written: three LEDs off, then rounds of ten deeds. */
  function Program(i: nat): Deed {
    if i == 0 then Sent(LED1, false)
    else if i == 1 then Sent(LED2, false)
    else if i == 2 then Sent(LED4, false)
    else RoundDeed((i - 3) / 10, (i - 3) % 10)
  }

  function RoundDeed(round: nat, k: nat): Deed
    requires k < 10
  {
    if k == 0 then Sent(LED3, false)
    else if k == 1 then Sent(LED1, true)
    else if k == 2 then Slept
    else if k == 3 then Sent(LED1, false)
    else if k == 4 then Sent(LED2, true)
    else if k == 5 then Slept
    else if k == 6 then Sent(LED2, false)
    else if k == 7 then Sent(LED3, true)
    else if k == 8 then Slept
    else Sent(LED4, round % 2 == 0)
  }

  /** Where the client is before deed `k` of a round. */
  function InRound(k: nat): Position
    requires k < 10
  {
    if k == 0 then Off3 else if k == 1 then On1 else if k == 2 then Sleep1 else if k == 3 then Off1
    else if k == 4 then On2 else if k == 5 then Sleep2 else if k == 6 then Off2 else if k == 7 then On3
    else if k == 8 then Sleep3 else Toggle4
  }

  /** The client is before deed `n` of its program. */
  predicate IsBefore(z: System, n: nat) {
    if n == 0 then z.at == Clear1 && !z.led4State
    else if n == 1 then z.at == Clear2 && !z.led4State
    else if n == 2 then z.at == Clear4 && !z.led4State
    else z.at == InRound((n - 3) % 10) && z.led4State == (((n - 3) / 10) % 2 == 1)
  }

  lemma NextInRound(m: nat)
    ensures (m + 1) % 10 == if m % 10 == 9 then 0 else m % 10 + 1
    ensures (m + 1) / 10 == if m % 10 == 9 then m / 10 + 1 else m / 10
  {
  }

  lemma NextDeed(z: System, n: nat)
    requires IsBefore(z, n)
    ensures Sleeping(z.at) ==> Program(n) == Slept && IsBefore(z.(at := Next(z.at)), n + 1)
    ensures !Sleeping(z.at) && z.at != Failed ==>
              && Program(n) == Sent(Command(z).0, Command(z).1)
              && var toggled := if z.at == Toggle4 then !z.led4State else z.led4State;
                 IsBefore(z.(at := Next(z.at), led4State := toggled), n + 1)
  {
    if n >= 3 { NextInRound(n - 3); }
  }

  lemma DeedStep(z: System, m: Move, n: nat)
    requires Can(z, m) && (z.at != Failed ==> IsBefore(z, n))
    ensures DeedOf(z, m) == [] || DeedOf(z, m) == [Program(n)]
    ensures Moved(z, m).at != Failed ==> IsBefore(Moved(z, m), n + |DeedOf(z, m)|)
  {
    if z.at != Failed { NextDeed(z, n); }
  }

  /** In every run, whatever the others do, the client does the deeds of its program in order and no others. */
  lemma {:induction false} DoesItsProgram(y: System, moves: seq<Move>)
    requires Begins(y) && Runs(y, moves)
    ensures forall i | 0 <= i < |Deeds(y, moves)| :: Deeds(y, moves)[i] == Program(i)
    ensures Reached(y, moves).at != Failed ==> IsBefore(Reached(y, moves), |Deeds(y, moves)|)
  {
    if moves != [] {
      var before := moves[..|moves| - 1];
      DoesItsProgram(y, before);
      DeedStep(Reached(y, before), moves[|moves| - 1], |Deeds(y, before)|);
    }
  }
}

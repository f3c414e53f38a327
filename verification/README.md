# Verified model of the virtual substation's stateful parts

This Dafny project models the parts of the virtual substation repository that keep state over whole
runs, and proves what they keep. `dafny verify dfyconfig.toml` checks all of it.

| file | what it models |
|---|---|
| `NativeModel.dfy` | the native data model tree as the managed server API sees it |
| `CacheSpec.dfy`, `ModelNodeCache.dfy`, `LookupRuns.dfy` | the cache of wrappers of model nodes: on values, as objects, and whole runs of lookups on objects |
| `WriteAccessSpec.dfy`, `ControlSpec.dfy`, `ConnectionSpec.dfy`, `IedServer.dfy` | the server's handler tables: recursive write-access registration, control dispatch, connections, report control blocks |
| `ServerTraces.dfy`, `ServerRuns.dfy` | whole runs of a server that mix lookups, registrations, indications and callbacks: on values and as objects |
| `BeagleSpec.dfy`, `BeagleServer.dfy`, `BeagleClient.dfy` | the BeagleBone demo server on values and as written, and the LED client running against it among other clients |
| `GooseSpec.dfy`, `GooseSubscriber.dfy`, `GooseRuns.dfy` | ownership of native GOOSE subscribers: on values, as objects, and whole runs on objects |
| `HandleSpec.dfy`, `AsyncClient.dfy` | lifetimes of GC handles of asynchronous client requests and downloads |
| `BreakerSpec.dfy`, `BreakerIed.dfy` | the breaker IED's poller, queue and display |
| `Quality.dfy`, `GooseControlBlock.dfy` | the packed quality word and the dirty-field mask of a GOOSE control block |

Conventions. Where the source changes state in place, a class has the source's fields and methods, and
each method's contract ties the new state to a function on values; theorems about all runs are then
lemmas about sequences of events on those values. Native code that is not part of this model answers
through parameters: the tree (`Native`), the clock (`now`), error codes, what a file read brings. A C#
exception is a result value. A loop over a native linked list is a loop over a sequence.

What is assumed of the native side is written into predicates: `Native.WellFormed` (the nodes form a
forest, children lists match parents, a name leads downwards), `BeagleSpec.Possible` (requests come from
open connections), `HandleSpec.Promised` (one callback per accepted request, none after a terminal file
chunk), `ConnectionSpec.Alternating` and `ServerTraces.Alternates` (a connection is opened only when it is
not open), `WriteAccessSpec.AttributesHoldAttributes` (a data attribute holds data attributes only; the
native recursion does not look at the type). Which nodes the native server has control objects for is a
fixed set given to the server (`IedServer.controlObjects`).

Three findings are stated as theorems rather than as plain promises:

- Registering a handler for a data object covers "the attributes below it with the constraint" if and
  only if that functional constraint is inherited inside constructed attributes
  (`CoversAttributesBelowIffInherited`, with a tree where it fails in
  `MixedConstraintsAreCoveredTogether`); the documentation promises it without that condition.
- A native GOOSE subscriber is freed as often as 1 + wrong removals - lost adds
  (`FreedExactlyOnceIff`); removing it through a receiver that does not list it frees it twice
  (`WrongRemovalFreesTwice`). The source's own remark asks only that `Dispose` is not called while
  attached, which the code in fact tolerates.
- A synchronous `GetFile` that fails leaves its handle allocated for good; handles are exactly the
  outstanding requests plus those failures (`HandlesAreOutstandingPlusFailed`).

## Model

| member | source | states |
|---|---|---|
| CacheSpec.MissingIsPathToCached | libiec61850/dotnet/IEC61850forCSharp/IEC61850ServerAPI.cs:151-202 | walking up to the first cached ancestor reaches exactly the nodes at or above the one looked up that have no cached node at or between |
| CacheSpec.ByReferenceAdds | libiec61850/dotnet/IEC61850forCSharp/IEC61850ServerAPI.cs:216-264 | a reference lookup adds the missing ancestors and the node, each linked to its native parent, and nothing else; a node outside every logical device adds nothing |
| CacheSpec.NotYetAdded | libiec61850/dotnet/IEC61850forCSharp/IEC61850ServerAPI.cs:194-198 | inserting a node's ancestors first never inserts the node, so Dictionary.Add cannot meet its own key |
| CacheSpec.ByParentAdds | libiec61850/dotnet/IEC61850forCSharp/IEC61850ServerAPI.cs:1273-1317 | lookups through a wrapper add exactly the children not cached yet, all hanging below that wrapper |
| CacheSpec.RunCoherent | libiec61850/dotnet/IEC61850forCSharp/IEC61850ServerAPI.cs:1189-1317 | every interleaving of lookups by reference, by (dotted) name and by list keeps each entry inside a logical device and below a proper native ancestor, and keeps every earlier link |
| CacheSpec.ReferenceAnswers | libiec61850/dotnet/IEC61850forCSharp/IEC61850ServerAPI.cs:216-264 | in any coherent cache a reference lookup finds a wrapper exactly for nodes inside a logical device |
| CacheSpec.ReferenceRunsLinkUp | libiec61850/dotnet/IEC61850forCSharp/IEC61850ServerAPI.cs:151-303 | runs of reference lookups alone leave the cache closed under native parents and linked like the native tree |
| CacheSpec.ReferenceRunKeys | libiec61850/dotnet/IEC61850forCSharp/IEC61850ServerAPI.cs:151-303 | after such runs the cached nodes are exactly those at or above something that was looked up |
| CacheSpec.ByParentLinksUp | libiec61850/dotnet/IEC61850forCSharp/IEC61850ServerAPI.cs:1189-1239 | a lookup through a wrapper keeps the links native if and only if what it adds are direct children of a cached node (a dotted name breaks it) |
| ModelNodeCache.ModelNode.GetIedModel | libiec61850/dotnet/IEC61850forCSharp/IEC61850ServerAPI.cs:1150-1163 | following wrapper parents ends, and a model is found only for a node inside a logical device |
| ModelNodeCache.ModelNode.GetChild | libiec61850/dotnet/IEC61850forCSharp/IEC61850ServerAPI.cs:1189-1239 | null exactly when the native lookup finds nothing; else the one cached wrapper, cache valid and extended as specified, what is added new and without report control blocks; without a model a fresh wrapper |
| ModelNodeCache.ModelNode.GetChildren | libiec61850/dotnet/IEC61850forCSharp/IEC61850ServerAPI.cs:1273-1317 | one fitting wrapper per native child in order, each the cached one, cache valid and extended as specified, what is added new and without report control blocks |
| ModelNodeCache.IedModel.GetParent | libiec61850/dotnet/IEC61850forCSharp/IEC61850ServerAPI.cs:151-202 | terminates by native depth, answers exactly when the node is inside a logical device, keeps entries, adds new wrappers only, keeps object links to native parents |
| ModelNodeCache.IedModel.GetModelNodeFromNodeRef | libiec61850/dotnet/IEC61850forCSharp/IEC61850ServerAPI.cs:216-264 | the same for the node itself, and the answer is the cached object |
| ModelNodeCache.FittingIsCoherent | libiec61850/dotnet/IEC61850forCSharp/IEC61850ServerAPI.cs:92-93 | a valid cache of objects is a coherent cache on values |
| ModelNodeCache.CachedClasses | libiec61850/dotnet/IEC61850forCSharp/IEC61850ServerAPI.cs:216-264 | every cached wrapper has the class of its native type: device, logical node, data object, data attribute for 0 to 3, a plain node for any other |
| LookupRuns.Perform | libiec61850/dotnet/IEC61850forCSharp/IEC61850ServerAPI.cs:159-264 | a lookup by reference answers the node iff it is inside a logical device, by name the child of that name, by list the children in order, each with its cached wrapper |
| LookupRuns.Replay | libiec61850/dotnet/IEC61850forCSharp/IEC61850ServerAPI.cs:159-264 | in every run of lookups on any wrappers at hand, each call answers exactly the nodes it asks for, one native node only ever with one wrapper object, the cached one; the cache stays valid and its links are those of the run of the same lookups on values; runs of reference lookups keep each wrapper below the cached wrapper of its native parent |
| WriteAccessSpec.AttributeTargetSplits | libiec61850/dotnet/IEC61850forCSharp/IEC61850ServerAPI.cs:3644-3655 | the attributes reached from an attribute are itself and, disjointly, those reached from its attribute children |
| WriteAccessSpec.ObjectTargetSplits | libiec61850/dotnet/IEC61850forCSharp/IEC61850ServerAPI.cs:3657-3670 | what an object covers is what its attribute children with the constraint and its object children cover |
| WriteAccessSpec.NextChildIsNew | libiec61850/dotnet/IEC61850forCSharp/IEC61850ServerAPI.cs:3644-3670 | the next child's nodes are disjoint from the earlier children's and the parent, so no key is added twice |
| WriteAccessSpec.CoversAttributesBelowIffInherited | libiec61850/dotnet/IEC61850forCSharp/IEC61850ServerAPI.cs:3697-3716 | for the constraint of a call, what it registers is exactly the attributes below with that constraint, if and only if every attribute inside an attribute has it exactly when the one around it has |
| WriteAccessSpec.MixedConstraintsAreCoveredTogether | libiec61850/dotnet/IEC61850forCSharp/IEC61850ServerAPI.cs:3644-3670 | a tree with a logical device, where an inner attribute is registered for a constraint it does not have and is not registered for its own |
| WriteAccessSpec.SubtreeSplits | libiec61850/src/iec61850/server/impl/ied_server.c:1838-1847 | the nodes the native recursion visits from an attribute are it and those visited from its children |
| WriteAccessSpec.NativeTargetSplits | libiec61850/src/iec61850/server/impl/ied_server.c:1861-1882 | the nodes it visits from an object are those visited from matching attribute children and from object children |
| WriteAccessSpec.CoveredAreReached | libiec61850/src/iec61850/server/impl/ied_server.c:1830-1883 | whatever the tree, the native server monitors every attribute that the managed recursion covers |
| WriteAccessSpec.MonitorsWhatIsCovered | libiec61850/src/iec61850/server/impl/ied_server.c:1830-1883 | when attributes hold attributes only, the native recursion over the tree and the managed recursion over the wrappers are for the same nodes |
| IedServer.RegisteredMeans | libiec61850/dotnet/IEC61850forCSharp/IEC61850ServerAPI.cs:3644-3716 | a registration succeeds exactly when none of its nodes was registered, keeps every entry, and adds exactly its nodes with handler, parameter and fitting wrapper |
| IedServer.RegisteredChild | libiec61850/dotnet/IEC61850forCSharp/IEC61850ServerAPI.cs:3648-3654 | one loop round extends the registered part by the child's part, and a failure there is a failure of the whole |
| IedServer.IedServer.HandleWriteAccess | libiec61850/dotnet/IEC61850forCSharp/IEC61850ServerAPI.cs:3635-3642 | adds the one entry and has the attribute monitored, or fails and changes nothing when the key exists; monitored attributes keep having entries |
| IedServer.IedServer.AddHandlerInfoForDataAttributeRecursive | libiec61850/dotnet/IEC61850forCSharp/IEC61850ServerAPI.cs:3644-3655 | registers the attribute and every attribute under it, terminates by subtree, keeps the wrapper cache valid and adds new wrappers only |
| IedServer.IedServer.AddHandlerInfoForDataObjectRecursive | libiec61850/dotnet/IEC61850forCSharp/IEC61850ServerAPI.cs:3657-3670 | registers what the object covers for the constraint, with the same guarantees |
| IedServer.IedServer.MonitorComplexAttribute | libiec61850/src/iec61850/server/impl/ied_server.c:1830-1849 | the native recursion monitors exactly the attribute and everything below it |
| IedServer.IedServer.MonitorDataObject | libiec61850/src/iec61850/server/impl/ied_server.c:1853-1883 | the native recursion monitors exactly what is reached from the object for the constraint |
| IedServer.IedServer.HandleWriteAccessForComplexAttribute | libiec61850/dotnet/IEC61850forCSharp/IEC61850ServerAPI.cs:3688-3695 | succeeds iff none of the attribute's parts is registered, then registers exactly those and has them monitored; earlier entries stay either way; a failure leaves entries for its parts only and has nothing monitored |
| IedServer.IedServer.HandleWriteAccessForDataObject | libiec61850/dotnet/IEC61850forCSharp/IEC61850ServerAPI.cs:3709-3716 | likewise for a data object, also on failure; for this constraint exactly the attributes below that have it, iff it is inherited below the object |
| IedServer.IedServer.WriteAccessHandlerImpl | libiec61850/dotnet/IEC61850forCSharp/IEC61850ServerAPI.cs:2964-2982 | a write is denied exactly without an entry, so never for a monitored attribute; else the registered handler gets its wrapper, parameter and the client's wrapper |
| ControlSpec.LastCallWins | libiec61850/dotnet/IEC61850forCSharp/IEC61850ServerAPI.cs:3561-3617 | after any sequence of Set calls a (node, kind) pair is set iff its node has a control object and some call set it, and holds the last call's registration |
| IedServer.IedServer.constructor | libiec61850/dotnet/IEC61850forCSharp/IEC61850ServerAPI.cs:3402-3412 | a new server has empty tables and finds no control handler for anything |
| IedServer.IedServer.GetControlHandlerInfo | libiec61850/dotnet/IEC61850forCSharp/IEC61850ServerAPI.cs:3546-3559 | the info of the wrapper, made if missing, without changing what callbacks find |
| IedServer.IedServer.SetHandler | libiec61850/dotnet/IEC61850forCSharp/IEC61850ServerAPI.cs:3561-3617 | changes what callbacks find for exactly this native node and kind, also when other wrappers stand for the node, and nothing for a node without a control object |
| IedServer.IedServer.Install | libiec61850/src/iec61850/server/impl/ied_server.c:1082-1128 | the native server takes notice exactly of a node it has a control object for |
| IedServer.IedServer.SetHandlers | libiec61850/dotnet/IEC61850forCSharp/IEC61850ServerAPI.cs:3561-3617 | any sequence of registrations through any aliasing wrappers is the last-call-wins table of the nodes with control objects |
| IedServer.IedServer.InternalHandlerImpl | libiec61850/dotnet/IEC61850forCSharp/IEC61850ServerAPI.cs:2888-2946 | a callback runs the handler with the parameter that is registered, with an action for this node, connection and server; without a handler it answers 0, 4, 0 or nothing by its kind |
| IedServer.ControlAction.GetClientConnection | libiec61850/dotnet/IEC61850forCSharp/IEC61850ServerAPI.cs:2131-2143 | a control action's client is what the write and report callbacks resolve its connection to as well, and stands for that connection; none for a null pointer |
| ServerRuns.CallbackAfter | libiec61850/dotnet/IEC61850forCSharp/IEC61850ServerAPI.cs:3546-3617 | after any Set calls on a new server a callback happens iff its node has a control object and its (node, kind) was set; it runs the last call's handler with its parameter, or answers the kind's default when that call set none |
| ConnectionSpec.TableHoldsOpenConnections | libiec61850/dotnet/IEC61850forCSharp/IEC61850ServerAPI.cs:3366-3394 | for every alternating stream the table holds exactly the open connections, each with the wrapper made when it was opened last |
| IedServer.IedServer.ConnectionIndicationHandlerImpl | libiec61850/dotnet/IEC61850forCSharp/IEC61850ServerAPI.cs:3366-3392 | opening adds and announces a fresh wrapper, closing announces that wrapper and removes it; a repeated open fails, an unknown close is ignored |
| IedServer.IedServer.Indications | libiec61850/dotnet/IEC61850forCSharp/IEC61850ServerAPI.cs:3366-3394 | for every stream what is told of each indication is what the table then says, different openings with different wrappers; for every alternating stream the opening and the closing of a connection are told with one wrapper, and while it is open its pointer resolves to that wrapper |
| IedServer.ToldInOrderMeans | libiec61850/dotnet/IEC61850forCSharp/IEC61850ServerAPI.cs:3366-3394 | in an alternating stream an opening is told with the new wrapper and a closing with the wrapper of its opening, and of nothing else |
| ConnectionSpec.OpensWhatIsNotOpen | libiec61850/dotnet/IEC61850forCSharp/IEC61850ServerAPI.cs:3382-3391 | in an alternating stream an opening never meets its own key |
| ConnectionSpec.RepeatedOpenChangesNothing | libiec61850/dotnet/IEC61850forCSharp/IEC61850ServerAPI.cs:3382-3387 | in any stream an opening of an open connection leaves the table with the wrapper it has |
| ModelNodeCache.ModelNode.GetRcb | libiec61850/dotnet/IEC61850forCSharp/IEC61850ServerAPI.cs:3972-3975 | a logical node's wrapper, and no other, hands out one report-control-block wrapper per native block |
| IedServer.IedServer.InternalRCBEventHandlerImplementation | libiec61850/dotnet/IEC61850forCSharp/IEC61850ServerAPI.cs:3947-3982 | the block's wrapper comes from the two-level cache and belongs to the cached logical node; the client's wrapper is the open connection's; both caches keep their entries |
| ServerTraces.TableFitsNext | libiec61850/dotnet/IEC61850forCSharp/IEC61850ServerAPI.cs:3366-3394 | one more call with its effect keeps the table holding exactly the open connections, with the wrappers told at their openings |
| ServerTraces.SameConnectionNext | libiec61850/dotnet/IEC61850forCSharp/IEC61850ServerAPI.cs:2131-2143 | if the table does, one more write, control or report callback over an open connection, or its closing, is given the wrapper told at its opening |
| ServerTraces.HandlersFitNext | libiec61850/dotnet/IEC61850forCSharp/IEC61850ServerAPI.cs:3546-3617 | one more call with its effect keeps the control table holding the registration of the last call for each node and kind |
| ServerTraces.LastHandlerRunsNext | libiec61850/dotnet/IEC61850forCSharp/IEC61850ServerAPI.cs:2888-2946 | if the table does, one more control callback runs the handler with the parameter of the last call that set it, or answers the default when that call set none |
| ServerTraces.EntriesFitNext | libiec61850/dotnet/IEC61850forCSharp/IEC61850ServerAPI.cs:3635-3716 | one more call with its effect keeps every registration that succeeded serving its attributes |
| ServerTraces.WritesReachNext | libiec61850/dotnet/IEC61850forCSharp/IEC61850ServerAPI.cs:2964-2982 | if they are served, one more write to an attribute that a registration covers runs its handler with its parameter |
| ServerTraces.KeptNext | libiec61850/dotnet/IEC61850forCSharp/IEC61850ServerAPI.cs:2888-2982 | one more call with its effect keeps all of this |
| ServerTraces.TranscriptKept | libiec61850/dotnet/IEC61850forCSharp/IEC61850ServerAPI.cs:2888-3982 | in every transcript of mixed calls from a server without connections and control handlers: write, control and report callbacks over a connection and its closing are given the wrapper told at its opening; control callbacks run the handler set last; from a registration onwards every write it covers runs its handler; no monitored write is denied; the tables hold exactly what the calls left |
| ServerTraces.LeftBehindIsDead | libiec61850/dotnet/IEC61850forCSharp/IEC61850ServerAPI.cs:3644-3716 | entries that a failed registration leaves are for attributes it was to cover, are never monitored, and make every later registration that covers one of them fail |
| ServerRuns.Perform | libiec61850/dotnet/IEC61850forCSharp/IEC61850ServerAPI.cs:2888-3982 | each kind of call on a server keeps its invariant and all its caches, answers what was asked, and has its effect on the tables |
| ServerRuns.Run | libiec61850/dotnet/IEC61850forCSharp/IEC61850ServerAPI.cs:2888-3982 | every run of a server that mixes lookups, registrations, indications and callbacks is a transcript of its calls from the tables before it to those after it; the caches then hold all that was answered and handed out, one wrapper per native node and per report control block, and each opening has a wrapper of its own; from a server without connections and control handlers all that is promised of transcripts is kept |
| ServerRuns.RunNew | libiec61850/dotnet/IEC61850forCSharp/IEC61850ServerAPI.cs:3402-3412 | the same for every run of a new server of a new model, from empty tables |
| BeagleSpec.RunsKeepMode | libiec61850/demos/beaglebone/beagle_demo.c:26-77 | in every run: automatic mode iff nobody controls, the controlling client is connected, delays are non-negative, the published count is the count |
| BeagleSpec.InControlUntilDisconnect | libiec61850/demos/beaglebone/beagle_demo.c:36-77 | a client whose command was accepted stays in control until it disconnects |
| BeagleSpec.ControlIsExclusive | libiec61850/demos/beaglebone/beagle_demo.c:58-77 | between accepted commands of two different clients the first has disconnected |
| BeagleSpec.InControlIffTaken | libiec61850/demos/beaglebone/beagle_demo.c:36-77 | at any point of a run a client is in control iff it operated, be it for a test, while nobody was in control and has not disconnected since |
| BeagleSpec.SettingsHoldLastWrites | libiec61850/demos/beaglebone/beagle_demo.c:182-210 | at any point of a run the off-time is the last non-negative OpDlTmms written and the on-time the last non-negative RsDlTmms, 1000 before any |
| BeagleSpec.DueRoundToggles | libiec61850/demos/beaglebone/beagle_demo.c:280-306 | a loop round that comes with nobody in control and the toggle time reached flips the automatic state, sets the next toggle by the on- or off-time, and shows the state on LEDs 1 to 3 alone |
| BeagleSpec.OnlyDueRoundsToggle | libiec61850/demos/beaglebone/beagle_demo.c:36-306 | no other event of a run changes the automatic state or the time of the next toggle |
| BeagleSpec.OnAfterOddRounds | libiec61850/demos/beaglebone/beagle_demo.c:276-306 | the automatic state is on exactly after an odd number of due rounds |
| BeagleSpec.TogglesAlternateAndWait | libiec61850/demos/beaglebone/beagle_demo.c:276-306 | automatic toggles alternate, on first, and each waits at least the delay in force at the one before |
| BeagleSpec.NextToggleNeverDecreases | libiec61850/demos/beaglebone/beagle_demo.c:278-293 | the time of the next toggle never moves back in any run, whatever the clock does |
| BeagleSpec.CountAfterReset | libiec61850/demos/beaglebone/beagle_demo.c:161-180 | the count is the last non-test reset value plus the automatic turn-ons since, in 32 bits |
| BeagleSpec.CountWithoutReset | libiec61850/demos/beaglebone/beagle_demo.c:295-300 | without a reset the count is the number of automatic turn-ons, in 32 bits |
| BeagleSpec.LedsShowAutomaticState | libiec61850/demos/beaglebone/beagle_demo.c:284-306 | LEDs 1 to 3 equal the automatic state as long as no command on them was accepted since the start or a toggle |
| BeagleSpec.LitIffPutOn | libiec61850/demos/beaglebone/beagle_demo.c:109-306 | at any point of a run a LED is lit iff an accepted command for it, or a due round for LEDs 1 to 3, put it on and none later put it off |
| BeagleServer.BeagleServer.ConnectionIndicationHandler | libiec61850/demos/beaglebone/beagle_demo.c:36-56 | is the connect or disconnect event of the run model |
| BeagleServer.BeagleServer.PerformCheckHandler | libiec61850/demos/beaglebone/beagle_demo.c:58-77 | takes control if it is free, even for a test command, which is always rejected, and accepts exactly the controlling client's other commands |
| BeagleServer.BeagleServer.ControlHandlerForBinaryOutput | libiec61850/demos/beaglebone/beagle_demo.c:109-155 | switches exactly the addressed LED, and nothing for a test command |
| BeagleServer.BeagleServer.Operate | libiec61850/demos/beaglebone/beagle_demo.c:58-155 | check and control together are the operate event; accepted exactly when the check accepts |
| BeagleServer.BeagleServer.ControlHandlerForInt32Controls | libiec61850/demos/beaglebone/beagle_demo.c:161-180 | is the reset event: count and published count together, any client, not for test |
| BeagleServer.BeagleServer.Int32WriteAccessHandler | libiec61850/demos/beaglebone/beagle_demo.c:182-210 | is the settings event: OpDlTmms sets the off-time and RsDlTmms the on-time, each error code exactly in its case |
| BeagleServer.BeagleServer.MainLoopRound | libiec61850/demos/beaglebone/beagle_demo.c:280-306 | is the tick event: in automatic mode, once the toggle time is reached, the state flips, the next toggle is set by the on-time after turning on and by the off-time after turning off, and LEDs 1 to 3 show it |
| BeagleServer.BeagleServer.Serve | libiec61850/demos/beaglebone/beagle_demo.c:212-331 | any sequence of callbacks and loop rounds is a run of the model |
| BeagleClient.BeginsAfterAnyRun | libiec61850/demos/beaglebone/beagle_client.c:27-49 | the client may begin after any run of the server that has its connection open |
| BeagleClient.OthersCannotSwitch | libiec61850/demos/beaglebone/beagle_demo.c:58-77 | while a client is in control no event of others or of the main loop changes a LED or takes control |
| BeagleClient.RunsKeepSequencing | libiec61850/demos/beaglebone/beagle_client.c:51-100 | at every position of the client's program, in every interleaving, the client is in control and the LEDs are as that position says |
| BeagleClient.SleepsWithOneLed | libiec61850/demos/beaglebone/beagle_client.c:61-100 | asleep, exactly the LED of that sleep is on; at the loop head led4State is what LED4 shows |
| BeagleClient.NeverRejectedLater | libiec61850/demos/beaglebone/beagle_client.c:51-106 | after the first accepted command an answered command is never rejected, so the client fails only by loss |
| BeagleClient.ShownInOrder | libiec61850/demos/beaglebone/beagle_client.c:61-100 | sleep after sleep the LEDs show 1, 2, 3, 1, 2, 3 and so on until the client goes offline |
| BeagleClient.Led4AlternatesByRound | libiec61850/demos/beaglebone/beagle_client.c:86-99 | at the loop head LED4 is lit exactly after an odd number of rounds of three sleeps |
| BeagleClient.DoesItsProgram | libiec61850/demos/beaglebone/beagle_client.c:51-100 | in every run, whatever the others do, the commands that reach the server and the sleeps are, in order, those of the program: three LEDs off, then rounds of ten deeds with LED4 alternating |
| GooseSpec.ClaimsStep | libiec61850/dotnet/IEC61850forCSharp/GooseSubscriber.cs:90-133 | each operation conserves the claims on a native subscriber, except that a wrong removal adds one and an add to a disposed receiver drops one |
| GooseSpec.ClaimsConserved | libiec61850/dotnet/IEC61850forCSharp/GooseSubscriber.cs:90-133 | over every run at all the claims are one plus wrong removals less lost adds |
| GooseSpec.FreedExactlyOnceIff | libiec61850/dotnet/IEC61850forCSharp/GooseSubscriber.cs:338-359 | when everything is disposed a subscriber was freed exactly once iff its wrong removals and lost adds balance |
| GooseSpec.FreedAtMostOnce | libiec61850/dotnet/IEC61850forCSharp/GooseSubscriber.cs:338-359 | at any point of a run without wrong removals it was freed at most once |
| GooseSpec.WrongRemovalFreesTwice | libiec61850/dotnet/IEC61850forCSharp/GooseSubscriber.cs:100-108 | a concrete run with a removal through another receiver frees it twice |
| GooseSpec.AttachedMeansListedOnce | libiec61850/dotnet/IEC61850forCSharp/GooseSubscriber.cs:90-108 | over every run the receivers' lists hold a subscriber once if attached and not otherwise, plus one per misdirected removal |
| GooseSpec.AttachedIffAddedSince | libiec61850/dotnet/IEC61850forCSharp/GooseSubscriber.cs:90-108 | over every run a subscriber is attached iff it was added to some receiver and not removed through any since |
| GooseSpec.DisposedIffDisposeCalled | libiec61850/dotnet/IEC61850forCSharp/GooseSubscriber.cs:125-359 | over every run a subscriber or receiver is disposed exactly from its first Dispose on |
| GooseSpec.AddGoesToItsReceiver | libiec61850/dotnet/IEC61850forCSharp/GooseSubscriber.cs:90-98 | an add that attaches appends to the lists of its own receiver and leaves every other receiver |
| GooseSubscriber.GooseSubscriber.Dispose | libiec61850/dotnet/IEC61850forCSharp/GooseSubscriber.cs:348-359 | frees the native subscriber only the first time and only when not attached; other subscribers untouched |
| GooseSubscriber.GooseReceiver.AddSubscriber | libiec61850/dotnet/IEC61850forCSharp/GooseSubscriber.cs:90-98 | is the add operation on this receiver and subscriber; other native lists untouched |
| GooseSubscriber.GooseReceiver.RemoveSubscriber | libiec61850/dotnet/IEC61850forCSharp/GooseSubscriber.cs:100-108 | is the remove operation on this receiver and subscriber, also when this receiver does not list it |
| GooseSubscriber.GooseReceiver.Dispose | libiec61850/dotnet/IEC61850forCSharp/GooseSubscriber.cs:125-133 | the first time frees each subscriber as often as the native list holds it, later nothing |
| GooseRuns.Perform | libiec61850/dotnet/IEC61850forCSharp/GooseSubscriber.cs:90-133 | any call on any of the receivers and subscribers there are does to all of them what its operation does to the values |
| GooseRuns.Replay | libiec61850/dotnet/IEC61850forCSharp/GooseSubscriber.cs:90-359 | every run of calls on objects ends as the run on values does, so a native subscriber is freed as often as the values say |
| HandleSpec.RunsAreSound | libiec61850/dotnet/IEC61850forCSharp/IEC61850ClientAPI.cs:1518-1557 | in every interleaving of requests and callbacks no handle is used or freed after being freed |
| HandleSpec.CallbackFindsItsRequest | libiec61850/dotnet/IEC61850forCSharp/IEC61850ClientAPI.cs:1750-1793 | a callback finds handler and parameter of the one open request for its handle, although handle values are used again |
| HandleSpec.HandlesAreOutstandingPlusFailed | libiec61850/dotnet/IEC61850forCSharp/IEC61850ClientAPI.cs:1685-1829 | allocated handles = accepted requests not finished + failed synchronous downloads |
| HandleSpec.SecondResponseFaults | libiec61850/dotnet/IEC61850forCSharp/Control.cs:363-377 | without the one-callback promise a freed handle is used |
| AsyncClient.AsyncClient.RequestAsync | libiec61850/dotnet/IEC61850forCSharp/Control.cs:487-507 | is the start event: the handle stays allocated exactly when the native call accepted the request |
| AsyncClient.AsyncClient.NativeServiceHandler | libiec61850/dotnet/IEC61850forCSharp/Control.cs:363-377 | is the response event and runs the callback of its own request |
| AsyncClient.AsyncClient.NativeGetFileAsyncEnter | libiec61850/dotnet/IEC61850forCSharp/IEC61850ClientAPI.cs:1750-1771 | runs the callback of its own download and keeps the handle |
| AsyncClient.AsyncClient.NativeGetFileAsyncLeave | libiec61850/dotnet/IEC61850forCSharp/IEC61850ClientAPI.cs:1773-1793 | frees the handle exactly when the download does not go on |
| AsyncClient.AsyncClient.GetFile | libiec61850/dotnet/IEC61850forCSharp/IEC61850ClientAPI.cs:1685-1700 | every chunk runs the caller's callback; on failure the handle is left behind, else freed |
| AsyncClient.AsyncClient.Perform | libiec61850/dotnet/IEC61850forCSharp/IEC61850ClientAPI.cs:1642-1793 | each request, callback and part of a download does to the object what its event does to the values, and tells the callback of the open request |
| AsyncClient.Replay | libiec61850/dotnet/IEC61850forCSharp/IEC61850ClientAPI.cs:1642-1793 | every run on an object, also with requests made inside handlers, ends as the run on values does, and every callback is told to the handler and parameter of the one open request for its handle |
| BreakerSpec.StripEnds | breaker_gui.py:158-158 | a stripped payload starts and ends with a character that is not space |
| BreakerSpec.SpaceCharacters | breaker_gui.py:158-158 | exactly the listed characters count as space |
| BreakerSpec.StripTrims | breaker_gui.py:158-158 | stripping removes only space, at the ends |
| BreakerSpec.SplitJoins | breaker_gui.py:171-174 | splitting at commas loses nothing and leaves no comma in a field |
| BreakerSpec.QueueShowsAllReads | breaker_gui.py:153-216 | for every interleaving of polls and drains, display plus queue shows what applying every well-formed read without de-duplication would show |
| BreakerSpec.ClosedIffClosedAndNotTripped | breaker_gui.py:191-212 | the breaker shows CLOSED iff some processed payload has "1" in its second field and not in its first, and none processed later has "1" in its first |
| BreakerSpec.LabelsShowLast | breaker_gui.py:195-207 | every other label shows its field of the payload processed last: active for "1", the fault of the codes "0" to "3", the texts with their units |
| BreakerSpec.FaultTexts | breaker_gui.py:197-198 | the four fault codes and no other text have a fault of their own |
| BreakerSpec.NothingLostOrReordered | breaker_gui.py:153-194 | what is processed and what is queued are, in order, the payloads of at least seven fields that differ from the one before |
| BreakerSpec.WarnsIffRefused | breaker_gui.py:160-185 | the permission warning is up iff the last poll that was readable or refused was refused |
| BreakerIed.BreakerIed.PollOnce | breaker_gui.py:153-189 | is the poll step for every outcome of reading the file |
| BreakerIed.BreakerIed.ShowStatus | breaker_gui.py:195-212 | "1" in the first field trips and opens, "1" in the second alone closes, anything else leaves the position; the labels say so by the literal texts |
| BreakerIed.BreakerIed.ProcessOne | breaker_gui.py:193-212 | is the drain step for the oldest queued item |
| BreakerIed.BreakerIed.ProcessQueue | breaker_gui.py:191-218 | empties the queue and shows everything that was in it, in order |
| Quality.ValidityNeverCarries | libiec61850/dotnet/IEC61850forCSharp/IEC61850CommonAPI.cs:228-233 | adding the validity to the cleared word never carries |
| Quality.SetterRefines | libiec61850/dotnet/IEC61850forCSharp/IEC61850CommonAPI.cs:228-383 | a setter changes its own field of the record, no other, and never the two unused bits |
| Quality.SettersRefine | libiec61850/dotnet/IEC61850forCSharp/IEC61850CommonAPI.cs:186-384 | any sequence of setters on any 16-bit value refines the same sequence on the record |
| Quality.RecordIsFaithful | libiec61850/dotnet/IEC61850forCSharp/IEC61850CommonAPI.cs:188-201 | the record and the unused bits determine the word |
| Quality.FlagBits | libiec61850/dotnet/IEC61850forCSharp/IEC61850CommonAPI.cs:190-201 | each flag of the record is its own bit of the word, from bit 2 for overflow to bit 13 for derived |
| Quality.Quality.SetAll | libiec61850/dotnet/IEC61850forCSharp/IEC61850CommonAPI.cs:228-383 | a sequence of setter calls on the object reads back as that sequence on the record |
| Quality.Quality.GetValidity | libiec61850/dotnet/IEC61850forCSharp/IEC61850CommonAPI.cs:221-226 | good, reserved, invalid or questionable for the two low bits 0 to 3, and so the value that SetValidity put into any word that led here |
| Quality.Quality.Get | libiec61850/dotnet/IEC61850forCSharp/IEC61850CommonAPI.cs:241-383 | reads the record's flag |
| GooseControlBlock.SumIsUnion | libiec61850/dotnet/IEC61850forCSharp/GooseControlBlock.cs:150-162 | the additive mask is the bitwise union |
| GooseControlBlock.MaskIsExact | libiec61850/dotnet/IEC61850forCSharp/GooseControlBlock.cs:150-162 | a field's bit is set in the mask exactly when the field is in the set, and no other bit is |
| GooseControlBlock.DirtyIsWrittenSinceSend | libiec61850/dotnet/IEC61850forCSharp/GooseControlBlock.cs:139-217 | over every run a field is due exactly when it was written since the last send, successful or failed |
| GooseControlBlock.GooseControlBlock.SetField | libiec61850/dotnet/IEC61850forCSharp/GooseControlBlock.cs:184-270 | a setter makes exactly its field due |
| GooseControlBlock.GooseControlBlock.SetCBValues | libiec61850/dotnet/IEC61850forCSharp/GooseControlBlock.cs:148-172 | sends the mask of the fields due and leaves none due, also when it fails |
| GooseControlBlock.MaskSaysWritten | libiec61850/dotnet/IEC61850forCSharp/GooseControlBlock.cs:148-172 | the mask of what is due has bit 0, 1, 2 or 5 exactly when GoEna, GoID, DatSet or DstAddress was written since the last send, and no other bit |
| GooseControlBlock.Replay | libiec61850/dotnet/IEC61850forCSharp/GooseControlBlock.cs:139-270 | in every run of setters and sends on a block each mask names exactly the fields written since the send before it |

## Left out

- The MMS, ACSE and presentation codecs and the GOOSE engine: their source is not part of this model.
- Building a data model at run time (`LogicalDevice`, `DataObject`, `DataAttribute` constructors that create native nodes, CDC creators): the native tree is fixed in this model.
- `GetDeviceByInst` and `GetChildWithFc` bypass the cache: their wrappers appear as the outside wrappers of `LookupRuns.Replay` and `ServerRuns.Run`, and no identity is claimed for them.
- How native lookups resolve names and references: any answer below the wrapper's node is allowed.
- `GetSVControlBlock`, setting-group, data-set, directory and authentication handlers: each would add one more member of a kind already modelled. The setting-group handlers register only the first control block and one of them passes another handler's parameter; nothing is claimed for them.
- GooseSubscriber.GooseReceiver.AddSubscriber: on a disposed receiver the native library is given a null pointer, which it follows; the model takes the call to do nothing. The empty list element that a disposed subscriber leaves is not modelled; destroying the receiver skips it.
- GooseSubscriber.GooseReceiver.RemoveSubscriber: the same holds for a null pointer; two subscriber objects with one native subscriber are excluded; no constructor makes them.
- AsyncClient.AsyncClient.GetFile: the application's handler makes no requests during the call; `AsyncClient.Replay` covers handlers that do, with chunk calls as events of their own.
- BeagleSpec.CountAfterReset: the counter wraps at 32 bits; in C a signed overflow is undefined.
- BeagleServer.BeagleServer.MainLoopRound: times are unbounded integers where the source has 64-bit ones; analogue values, timestamps and qualities are not modelled.
- BeagleServer.BeagleServer.ControlHandlerForBinaryOutput: the three seconds of flashing of LED4 and the intermediate double-point state are one step.
- BeagleClient.RunsKeepSequencing: the client is a machine over its program positions rather than a loop, because other parties move between its commands; a check and its operation are one step and select does nothing, as direct control with normal security has it.
- BreakerIed.BreakerIed.PollOnce: printing of messages and the sleep between polls are not modelled.
- BreakerIed.BreakerIed.ProcessOne: the time of the last update is not modelled, and parsing and printing of the frequency is a parameter.
- `OperateAsync` with an `int` value calls itself and `MsTimestampToDateTime` drops its additions: nothing is claimed for them.
- Garbage-collector timing, finalizers, thread scheduling inside a step, drawing and file handling.

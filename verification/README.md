# Models of the railway control software

Dafny models of the parts of the repository where many small steps have to add up to one promise:
the interlocking automata of the layout, the command station's schedulers and streams, the logic
virtual machine, and the stores and matchers around them. `dafny verify dfyconfig.toml` checks
everything.

## What is modelled

**Interlocking** (`automata/control-logic.cc`). A `Def()` is one guarded rule: all its conditions, then all its
actions in order; the rules of a block run top to bottom and their effects are visible at once to
later rules. All bits are zero at boot. The interpreter and the headers of the automata are not part
of this model, so these are assumptions.

- `RouteRules` has the six rules of one direction of one piece and what a pass over them achieves.
- `Interlock` takes one piece with any number of routes, lets single rules fire in any order, lets
  the neighbours write anything on the shared bits at any time, and shows that two routes are never
  set together.
- `RouteReset` takes a whole pass of a piece while the reset bit is set, block by block, each with
  its reset rule and then its six rules.
- `RouteLine` takes a line of any number of pieces with requests from both ends at once. Every
  reachable state is described by one token per direction, and from that follow all-or-nothing,
  exactly one answer per request, and an answer within 2n+3 rounds.
- `SignalRules` has the rules of a signal in its own direction, shows that its two sides are the two
  ends of such a line, and where a signal is weaker than a straight piece. `SignalRuns` adds the
  opposite direction and takes whole runs of a signal. `SignalLine` puts two signals and the line
  between them together, sharing the bits of the end links, and carries the line's results over.
- `TrackPieces` has the same rules as objects that update their bits in place.
- `FlipFlop`, `Magnets` and `AspectRelay` have the permit arbiter, the coil driver and the relay of
  signal aspects. Clients of the arbiter may act between any two of its rules. `FlipFlopProgress`
  bounds how long a client waits.

**Streaming XML** (`FdiXml`). The generator keeps only the pieces of text of one step; a read at any
offset still gives that slice of the whole document, and a reader of the text (`FdiReader`) finds the
functions of the train in it. `add_to_output` is not part of this model; it is
taken to put the new action in front, as the reversal in `XmlGenerator::read` implies.

**Virtual machine** (`Varint`, `Vm`, `VmLaws`, `VmMachine`, `ProgramLayout`). Varints, the instructions
and the laws between them, call frames, and the layout of a program behind its preamble.

**Schedulers, stores and matchers**. `PacketScheduler` and `UpdateProcessor`; `EventStore` on `Bits`,
`BitFields` and `FileBytes`; `TrainReconcile` and `FindProtocol` on `DriveModes`; `Crc`. `Wrappers` has the
types they share.

## Where the code is weaker than it should be

Each of the first eight is proved with the exact condition under which the code does what is wanted.

- A reset pass clears lock and routes but not what is pending, and each block looks at requests
  before the next one is reset. While nobody asks, a reset is harmless whatever answers come back if
  and only if nothing is pending (`RouteReset.QuietResetSafeExactly`). With nothing pending, it is
  harmless if and only if no block but the last takes a request during the pass
  (`RouteReset.ResetPassSafeExactly`); a piece at rest whose first block is asked is a failing input
  (`RouteReset.AskedDuringReset`).
- A signal asked to turn green does not look at the opposite route. Over all runs from boot it gets
  both routes, at once or by the next success, if and only if it asked while the opposite route was
  set, given that the piece ahead answers only what it was asked (`SignalRuns.SignalSafeExactly`). In a
  single pass both routes end up set if and only if a
  success arrives while the opposite route is set and green is requested or a request is pending
  (`SignalRules.SignalConflictsExactly`).
- An answer for a route through a signal, success or failure, reaches the piece behind if and only if
  green is not requested meanwhile (`SignalRules.ThroughAnswerRelayedExactly`); otherwise the request
  stays pending until some later answer comes (`SignalRules.StalePendingTakesNextAnswer`).
- Adding a refresh source that is already known forgets when it was last served. At time t this lets
  no later background packet come too early if and only if the source has had no packet or its last
  one is more than the delay ago, and no urgent one if and only if it is at least the delay ago
  (`PacketScheduler.AddKeepsSpacingExactly`); `PacketScheduler.ReAddBreaksSpacing` is a failing run.
- The exclusive source is at every time one of the highest exclusive priority if and only if every
  event fits (`PacketScheduler.ExclusiveAlwaysHighestExactly`): the exclusive source is not added
  again with a priority below exclusive or below another one, and index 2047, which reads as "none",
  is not where a new exclusive source or, after a removal, the last one of the highest priority stands (`PacketScheduler.AddKeepsExclusiveExactly`,
  `PacketScheduler.RemoveKeepsExclusiveExactly`). Failing inputs are in
  `PacketScheduler.ReAddKeepsStaleExclusive` and `PacketScheduler.ExclusiveAtTheLimit`.
- The event store multiplies block number and width in 32 bits. Over all files and all saves every
  block reads its latest event if and only if the last block starts below 2^32 bits
  (`EventStore.ReadsLatestExactly`); beyond, saving one block into an empty file makes block 0 read
  as known (`EventStore.WrappedSaveLeaks`).
- An address asked for through the find protocol comes back if and only if it is below a million
  (`FindProtocol.AddressRoundTrip`).
- Reading the checksum complements the register. After k reads anywhere before, the checksum read at
  the end of a message is right if and only if k is even (`Crc.ReadsHarmlessExactly`).
- `cs/logic/Bytecode.hxx:217-219` says that `IF_PREAMBLE` pushes 0 in the preamble; the code pushes 1.
  `cs/logic/Bytecode.hxx:173-178` also says that `CREATE_STATIC_VAR` pushes 0 in both cases; the code pushes 1
  for a new variable. The model follows the code.
- A CALL whose target is invalid still makes a frame and goes on behind the CALL; the matching RET
  undoes it like any other (`Vm.MatchedReturn` needs no valid target).

## Model

| member | source | states |
|---|---|---|
| `RouteRules.PassIsSimulateRoute` | automata/control-logic.cc:246-307 | the six rules in program order forward a request under the lock or refuse it, and hand back one answer, failure first |
| `Interlock.FireOutcomes` | automata/control-logic.cc:248-307 | one rule of a block leaves the piece's own bits alone, locks a free piece for its route, or gives up a pending lock with or without setting the route |
| `Interlock.ApplyKeepsSafe` | automata/control-logic.cc:263-307 | lock, pending, route and any-route bits stay consistent under every rule and every release, with arbitrary handshake bits |
| `Interlock.NoConflictingRoutes` | automata/control-logic.cc:310-347 | no run sets two routes of a straight, detector, turnout or double-slip piece with any number of routes |
| `Interlock.Boot` | automata/control-logic.cc:884-950 | the all-zero state of any piece is consistent |
| `RouteReset.Reset` | automata/control-logic.cc:237-244 | the reset rule of one block frees the lock and clears its route and any-route bits, and leaves every pending bit |
| `RouteReset.BlockComputes` | automata/control-logic.cc:237-307 | what a block does while the reset bit is set: a request is taken if the conflicting bits allow it, else an answer is looked at |
| `RouteReset.ResetPassSafeExactly` | automata/control-logic.cc:237-307 | a reset pass over all blocks with nothing pending, whatever is on the handshake bits, can lead to two routes if and only if a block before the last takes a request in it |
| `RouteReset.QuietResetSafeExactly` | automata/control-logic.cc:237-307 | a reset pass while nobody asks is harmless, whatever answers come back, if and only if nothing is pending |
| `RouteReset.AskedDuringReset` | automata/control-logic.cc:237-244 | a piece at rest that is asked during a reset can end up with two routes |
| `RouteLine.PassComputes` | automata/control-logic.cc:246-307 | what a block does to a line, in terms of where the request is |
| `RouteLine.EventMoves` | automata/control-logic.cc:310-347 | every event of either direction moves the two tokens and keeps all lock, pending, handshake and route bits those of two tokens |
| `RouteLine.RunMoves` | automata/control-logic.cc:263-307 | the same over any run; no piece ever has both route bits |
| `RouteLine.ReachableMatches` | automata/control-logic.cc:310-347 | every state reached from boot is that of two tokens |
| `RouteLine.AllOrNothing` | automata/control-logic.cc:246-307 | a granted request has set every route bit of a line that had none, a refused one has changed none, and both have freed every lock and pending bit of theirs |
| `RouteLine.NoOpposingRoutes` | automata/control-logic.cc:310-347 | from boot, no piece of a line gets both directions |
| `RouteLine.EnabledDecreasesRank` | automata/control-logic.cc:248-307 | the enabled event brings a request strictly nearer its answer and no other event moves it |
| `RouteLine.NextEvent` | automata/control-logic.cc:248-307 | an open request always has an enabled event |
| `RouteLine.RoundDecreasesRank` | automata/control-logic.cc:248-307 | a round in any order, mixed with anything, makes progress |
| `RouteLine.EveryRequestIsAnswered` | automata/control-logic.cc:589-613 | 2n+3 rounds finish any open request, whatever the other direction does |
| `RouteLine.AnsweredExactlyOnce` | automata/control-logic.cc:248-307 | over any run, requests made equal answers delivered plus the one outstanding |
| `SignalRules.SignalIsRequester` | automata/control-logic.cc:585-618 | the ahead side of a signal acts as the requester of a line, from the request through the time it travels to the answer, with requests from behind and through requests at the same time; when it takes an answer, sets its route and lights its lamp |
| `SignalRules.LineKeepsAhead` | automata/control-logic.cc:246-307 | whatever happens on the line ahead leaves the signal its requester, locked for as long as the request is open |
| `SignalRules.StoppingSignalAnswers` | automata/control-logic.cc:554-618 | what a stopping signal writes on the link behind it in any pass |
| `SignalRules.SignalIsFarEnd` | automata/control-logic.cc:554-583 | the rear side of a stopping signal answers in the same pass, accepts exactly when free, and writes nothing unasked, if and only if no answer to an earlier through request overwrites that |
| `SignalRules.PassRoute` | automata/control-logic.cc:585-618 | a pass sets the route of a signal exactly when it takes a success, and when it discards one |
| `SignalRules.PassLamp` | automata/control-logic.cc:564-613 | the lamp is on after a pass if and only if a success was taken for a request to turn green, or it was on and the pass neither accepted a route from behind nor took a failure |
| `SignalRules.PassAsks` | automata/control-logic.cc:585-618 | when a pass asks ahead, and how long it holds the lock and keeps a request pending |
| `SignalRules.PassingSignalIsPiece` | automata/control-logic.cc:545-618 | a signal that lets requests through and is not asked to turn green is a straight piece |
| `SignalRules.SignalConflictsExactly` | automata/control-logic.cc:585-618 | when both routes of a signal end up set in a pass, for stopping and passing signals |
| `SignalRules.SignalAsksDespiteOppositeRoute` | automata/control-logic.cc:589-596 | the outgoing request does not look at the opposite route |
| `SignalRules.ThroughAnswerRelayedExactly` | automata/control-logic.cc:598-618 | a through answer, success or failure, reaches the piece behind if and only if green is not requested |
| `SignalRules.StalePendingTakesNextAnswer` | automata/control-logic.cc:289-307 | a request left pending takes the next answer, whatever that was for |
| `SignalRuns.EventKeepsSound` | automata/control-logic.cc:620-640 | own and opposite direction of a signal shut each other out under every event, while green is asked only with the opposite route clear |
| `SignalRuns.SignalSafeExactly` | automata/control-logic.cc:620-640 | over all runs from boot, with a piece ahead that takes a request and answers it later or at once, a signal is never in or one success away from a conflict if and only if it asked only while the opposite route was clear |
| `SignalRuns.LampSaysWhy` | automata/control-logic.cc:564-613 | over all runs from boot the lamp is on if and only if a success was taken for a request to turn green and since then no route was accepted from behind and no failure taken |
| `SignalLine.PassAIsLine` | automata/control-logic.cc:585-618 | a pass of the requesting signal changes the first link as the line's requester does |
| `SignalLine.PassBIsLine` | automata/control-logic.cc:554-583 | a pass of the accepting signal changes the last link as the line's far end does |
| `SignalLine.RunIsLine` | automata/control-logic.cc:246-307 | any run of two signals and the pieces between them is, between them, a run of the line |
| `SignalLine.SignalsAllOrNothing` | automata/control-logic.cc:246-307 | between a requesting and an accepting signal an answered request has set every route, which were all clear, or changed none, and holds no lock any more |
| `SignalLine.GreenMeansRouteSet` | automata/control-logic.cc:598-605 | a signal lights its lamp only with every route up to the next signal set |
| `SignalLine.SignalsAnsweredExactlyOnce` | automata/control-logic.cc:589-613 | requests of a signal that reach the line equal answers delivered to it plus the one outstanding |
| `TrackPieces.TrackEnd.Bind` | automata/control-logic.cc:16-18 | binding joins two ends both ways and leaves their bits alone |
| `TrackPieces.TrackPiece.ConflictFree` | automata/control-logic.cc:263-269 | all conflicting bits are zero |
| `TrackPieces.TrackPiece.RunAsk` | automata/control-logic.cc:246-288 | the four request rules in place are the request part of a pass, and touch no other bit of the piece |
| `TrackPieces.TrackPiece.RunRelay` | automata/control-logic.cc:289-307 | the two answer rules in place are the answer part of a pass, and touch no other bit of the piece |
| `TrackPieces.TrackPiece.ResetRoute` | automata/control-logic.cc:237-244 | the reset rule in place |
| `TrackPieces.TrackPiece.RunRules` | automata/control-logic.cc:246-307 | the six rules in place are one pass of `RouteRules`, and touch no other bit of the piece |
| `TrackPieces.TrackPiece.SimulateRoute` | automata/control-logic.cc:237-307 | the whole block in place, with or without the reset bit |
| `TrackPieces.TrackPiece.PopulateAnyRouteSet` | automata/control-logic.cc:753-785 | the any-route bit becomes the disjunction of all route bits |
| `TrackPieces.SignalPiece.RunArrive` | automata/control-logic.cc:554-583 | the three arrival rules in place are the arrival part of a pass |
| `TrackPieces.SignalPiece.RunDepart` | automata/control-logic.cc:585-613 | the three departure rules in place are the departure part of a pass, and the opposite direction is left alone |
| `TrackPieces.SignalPiece.SimulateSignalFwdRoute` | automata/control-logic.cc:545-618 | all rules of a signal in its own direction, with or without the reset bit; route and pending bit of the opposite direction are left alone |
| `FlipFlop.FireToken` | automata/control-logic.cc:1602-1626 | only the lock rule gives the token and only the advance rule takes it away |
| `FlipFlop.FireHolder` | automata/control-logic.cc:1602-1681 | which single client can hold the permit after any rule, steals included |
| `FlipFlop.EventKeepsInv` | automata/control-logic.cc:1591-1683 | token, turn and holder stay consistent under every rule, tick and client action between rules |
| `FlipFlop.MutualExclusion` | automata/control-logic.cc:1591-1683 | at most one client is granted or taken, and never both, in every run |
| `FlipFlop.StrictCyclicOrder` | automata/control-logic.cc:1596-1626 | the k-th ordinary take is by client k mod n; the token is one-hot outside the free state |
| `FlipFlop.UsedPermitRests` | automata/control-logic.cc:1612-1655 | after a permit was used, ordinary or stolen, nobody holds it for three ticks |
| `FlipFlop.OwnerHasTwoTicks` | automata/control-logic.cc:1657-1662 | a client that asks for nothing in its turn has two ticks to think again before the turn is lent |
| `FlipFlop.WaitEndsStealing` | automata/control-logic.cc:1634-1636 | a permit that is used the ordinary way ends stealing that has been asked for |
| `FlipFlopProgress.EventLowersRank` | automata/control-logic.cc:1602-1626 | an event the arbiter waits for brings a client strictly nearer its permit, and no other event takes it away |
| `FlipFlopProgress.SomethingHelps` | automata/control-logic.cc:1602-1626 | there is always such an event |
| `FlipFlopProgress.EveryClientIsServed` | automata/control-logic.cc:1591-1683 | while whoever has the turn keeps its request up, every client is granted the permit within (n + 1) * (84 * n + 30) such events |
| `FlipFlopStealing.RunKeepsLendInv` | automata/control-logic.cc:1628-1681 | the timer runs only in the waiting states, stealing is granted only after it was asked for, a loan uses both bits up, and it is never to the client whose turn it is |
| `FlipFlopStealing.EventApproaches` | automata/control-logic.cc:1628-1681 | an event the arbiter waits for brings the loan strictly nearer and no other event takes it away |
| `FlipFlopStealing.PermitIsLent` | automata/control-logic.cc:1628-1647 | from any reachable state, while some client keeps its request up and whoever has the turn has none, a client out of turn gets the permit within 9 * (14 * n + 5) such events |
| `FlipFlopStealing.LoanLeavesNothing` | automata/control-logic.cc:1675-1681 | the end of the wait after a loan clears both steal bits, whatever they were |
| `FlipFlopStealing.EventEndsLoan` | automata/control-logic.cc:1648-1681 | an event a loan waits for brings its end strictly nearer and no other event takes it away |
| `FlipFlopStealing.EveryLoanEnds` | automata/control-logic.cc:1648-1681 | a loan ends within 4 * (14 * n + 5) such events, with the turn where it was, nobody holding the permit and both steal bits clear |
| `FlipFlopStealing.OwnerTakesBack` | automata/control-logic.cc:1669-1674 | a client that asks again before its turn was given away is granted the permit within 2 * (14 * n + 5) rules |
| `FlipFlop.FlipFlopAutomaton.FireOrdinary` | automata/control-logic.cc:1602-1626 | the turn-taking rules in place |
| `FlipFlop.FlipFlopAutomaton.FireThief` | automata/control-logic.cc:1629-1655 | the thief's rules in place |
| `FlipFlop.FlipFlopAutomaton.FireOwner` | automata/control-logic.cc:1657-1681 | the owner's side of stealing in place |
| `FlipFlop.FlipFlopAutomaton.FlipFlopLogic` | automata/control-logic.cc:1591-1683 | one pass runs every rule of every client in order |
| `Magnets.Boot` | automata/control-logic.cc:964-980 | after the boot rules every coil is off and every position is taken to be the opposite of its command |
| `Magnets.FireKeepsInv` | automata/control-logic.cc:982-1017 | a coil is on exactly while the automaton is in its magnet's state |
| `Magnets.AtMostOneCoil` | automata/control-logic.cc:957-1018 | whatever the commands and the order of rules, two coils that are on are the same coil |
| `Magnets.EveryMagnetIsPulled` | automata/control-logic.cc:971-1011 | from boot a magnet counts as being where it is commanded only after the coil of that side has been on |
| `Magnets.RulesAreMagnetPass` | automata/control-logic.cc:982-1017 | the five rules of a magnet in order |
| `Magnets.PassWorks` | automata/control-logic.cc:1051-1054 | the first pass after a tick removes work until everything is settled |
| `Magnets.SettlesWithinTicks` | automata/control-logic.cc:957-1018 | with steady commands 2n+1 ticks bring every magnet to its command with every coil off |
| `Magnets.CoilsSwitchAtTicks` | automata/control-logic.cc:1051-1054 | coils are switched only by the first pass after a tick, whatever is commanded meanwhile, so a pulled coil stays on for a full tick |
| `Magnets.MagnetAutomaton.MagnetEntry` | automata/control-logic.cc:981-1017 | the rules of one magnet in place |
| `Magnets.MagnetAutomaton.RunPass` | automata/control-logic.cc:1051-1060 | a whole pass in place, with the rule that leaves pulling to the ticks |
| `AspectRelay.Relayed` | automata/control-logic.cc:349-373 | a red signal shows zero behind it, a green one counts one up to three, a straight piece copies |
| `AspectRelay.ClearAhead` | automata/control-logic.cc:363-372 | number of green signals before the first red one |
| `AspectRelay.AspectsStabilise` | automata/control-logic.cc:190-202 | as many rounds as pieces, in any order and from any bits, make every link show min(3, clear signals ahead) |
| `AspectRelay.StableExactlyWhenRight` | automata/control-logic.cc:349-373 | nothing changes any more if and only if every link is right |
| `AspectRelay.AspectBits.DefCopy` | automata/system.cpp:156-161 | copying a bit with two rules |
| `AspectRelay.AspectBits.SetSignalState` | automata/control-logic.cc:360-372 | the four aspect rules in place |
| `AspectRelay.AspectBits.RunPiece` | automata/control-logic.cc:199-202 | one piece in place |
| `FdiXml.FdiXmlGenerator.LabelForFunction` | cs/commandstation/FdiXmlGenerator.cxx:76-83 | first label of the same type, momentary or not |
| `FdiXml.FdiXmlGenerator.SkipMissing` | cs/commandstation/FdiXmlGenerator.cxx:100-106 | skipping missing functions loses no text |
| `FdiXml.FdiXmlGenerator.OutputName` | cs/commandstation/FdiXmlGenerator.cxx:119-132 | the queued actions, turned round, spell the name element |
| `FdiXml.FdiXmlGenerator.GenerateMore` | cs/commandstation/FdiXmlGenerator.cxx:91-155 | each step queues, in reverse, a nonempty next part of the text still to come, or the text has ended; it terminates |
| `FdiXml.FdiXmlGenerator.Reset` | cs/commandstation/FdiXmlGenerator.cxx:85-89 | back to the start of the document of the given entry |
| `FdiXml.FdiXmlGenerator.TurnRound` | cs/commandstation/XmlGenerator.cxx:54-58 | the pending actions are reversed |
| `FdiXml.FdiXmlGenerator.CopyFront` | cs/commandstation/XmlGenerator.cxx:62-79 | skips and copies within one action |
| `FdiXml.FdiXmlGenerator.FillPending` | cs/commandstation/XmlGenerator.cxx:48-60 | a front action is there unless the document has ended |
| `FdiXml.FdiXmlGenerator.PopFront` | cs/commandstation/XmlGenerator.cxx:80-87 | dropping a used action keeps what is pending the rest of the document |
| `FdiXml.FdiXmlGenerator.Read` | cs/commandstation/XmlGenerator.cxx:40-90 | a read behind the current position is refused, any other returns that slice of the whole document |
| `FdiXml.TrainFdiSpace.Read` | cs/commandstation/AllTrainNodes.cxx:330-346 | every read at any offset, after any others, returns exactly that slice; only an empty one is an error |
| `FdiXml.TrainFdiSpace.SetNode` | cs/commandstation/AllTrainNodes.cxx:312-323 | a node already served keeps its place, another train starts at the front of its document, and anything else is refused |
| `FdiXml.ChunksAreSlice` | cs/commandstation/XmlGenerator.cxx:40-90 | consecutive reads of any sizes put the document together |
| `FdiReader.DecimalSpells` | cs/commandstation/XmlGenerator.cxx:105-112 | decimal text read from the left gives the number back, without a leading zero |
| `FdiReader.LabelIsFirst` | cs/commandstation/FdiXmlGenerator.cxx:76-83 | the label is that of the first entry of the table with the same type, or there is no such entry |
| `FdiReader.ElementReads` | cs/commandstation/FdiXmlGenerator.cxx:111-140 | a reader of the text of one function gets its number, its kind by bit 7 of the type, and its name |
| `FdiReader.DocumentReads` | cs/commandstation/FdiXmlGenerator.cxx:91-155 | a reader of the document finds exactly the existing functions of the train in ascending order, each with its number, kind and name |
| `FdiReader.FetchedDocumentReads` | cs/commandstation/XmlGenerator.cxx:40-90 | the same for a document fetched in pieces of any sizes that reach its end |
| `Varint.RoundTrip` | cs/logic/VM.cxx:135-157 | an encoded integer is parsed exactly and its bytes exactly consumed, wherever it stands |
| `Varint.ListRoundTrip` | cs/logic/VM.cxx:44-71 | the same for any concatenation of encoded integers |
| `Varint.PrefixFree` | cs/logic/VM.cxx:44-71 | no encoding is a prefix of that of another integer |
| `Varint.AppendVarint` | cs/logic/VM.cxx:44-71 | the loop that marks and appends bytes writes the encoding |
| `Varint.ParseVarint` | cs/logic/VM.cxx:135-157 | the loop over bytes decodes, and fails exactly when the code ends first |
| `Vm.JumpToAddress` | cs/logic/VM.cxx:93-120 | jumping to an encoded position comes back to it |
| `Vm.FetchMovesOn` | cs/logic/VM.cxx:103-105 | an instruction ends behind its start and within the block |
| `Vm.StepKeepsValid` | cs/logic/VM.cxx:189-543 | the frame pointer stays that of the top frame, the block stays a known one, and the code is never changed |
| `Vm.FramePointerIsTop` | cs/logic/VM.cxx:477-487 | in every run from a cleared machine the frame-pointer check of CALL never fails |
| `Vm.StepMovesFrames` | cs/logic/VM.cxx:477-510 | how an instruction can change frames and variables |
| `Vm.StepStaysInside` | cs/logic/VM.cxx:477-510 | a callee's steps, nested calls included, keep the caller's frames and variables |
| `Vm.StepLeavesCall` | cs/logic/VM.cxx:497-510 | the step that leaves a call restores the caller |
| `Vm.MatchedReturn` | cs/logic/VM.cxx:477-510 | the matching return resumes behind the CALL with the same frames, frame pointer and variables, and the operands cut to below the arguments |
| `Vm.CalleeKeepsCallersOperands` | cs/logic/VM.cxx:497-510 | a callee that stays above its arguments leaves the caller's operands as they were |
| `VmMachine.Machine.constructor` | cs/logic/VM.hxx:126-134 | a cleared machine at the start of a block |
| `VmMachine.Machine.JumpIp` | cs/logic/VM.cxx:107-120 | a jump in place, and when it is refused |
| `VmMachine.Machine.ExecuteCall` | cs/logic/VM.cxx:477-496 | CALL in place |
| `VmMachine.Machine.ExecuteRet` | cs/logic/VM.cxx:497-510 | RET in place |
| `VmMachine.Machine.ExecuteStackInstr` | cs/logic/VM.cxx:195-253 | stack and frame-relative instructions in place, with their error cases |
| `VmMachine.Machine.ReadVariable` | cs/logic/VM.hxx:232-238 | pushes an operand, a static variable, or what the world answers, or fails |
| `VmMachine.Machine.WriteVariable` | cs/logic/VM.hxx:245-252 | writes an operand or a static variable, or tells the world, or fails |
| `VmMachine.Machine.ExecuteIndirectLoad` | cs/logic/VM.cxx:254-265 | load through a variable reference |
| `VmMachine.Machine.ExecuteIndirectStore` | cs/logic/VM.cxx:266-277 | store through a variable reference |
| `VmMachine.Machine.ExecuteCreateIndirect` | cs/logic/VM.cxx:343-351 | a new reference to an operand |
| `VmMachine.Machine.ExecuteCreateVar` | cs/logic/VM.cxx:308-327 | name, block and number of states asked of the world, and a new variable under its number, or the error when the world refuses |
| `VmMachine.Machine.ExecuteImportVar` | cs/logic/VM.cxx:328-342 | a reference to a known variable of the world with an argument |
| `VmMachine.Machine.ExecuteCreateStatic` | cs/logic/VM.cxx:352-367 | a reference to a static variable, zero at first, and whether it is new |
| `Vm.StaticReadsBack` | cs/logic/Variable.hxx:125-137 | a value stored through one reference to a static variable is loaded through every other |
| `VmLaws.AnswersExactly` | cs/logic/VM.cxx:368-453 | every instruction with two operands replaces them by one value that depends on nothing else, wherever it stands; division and remainder by zero fail, and nothing else does |
| `VmLaws.MinusUndoesPlus` | cs/logic/VM.cxx:368-379 | difference undoes sum, and the sum counts up with its right operand |
| `VmLaws.MulRepeatsPlus` | cs/logic/VM.cxx:380-385 | the product is a repeated sum |
| `VmLaws.DivAndMod` | cs/logic/VM.cxx:386-405 | quotient and remainder divide: the remainder is smaller than the divisor and has the sign of the dividend |
| `VmLaws.ComparisonsAreOpposite` | cs/logic/VM.cxx:422-453 | comparisons answer 0 or 1, and opposite ones differ |
| `VmLaws.ComparisonsAgree` | cs/logic/VM.cxx:422-453 | at most and at least both hold if and only if the operands are equal |
| `VmLaws.ComparisonsMirror` | cs/logic/VM.cxx:422-453 | greater is less with the operands the other way round |
| `VmLaws.LessIsReach` | cs/logic/VM.cxx:422-453 | less holds if and only if adding something positive leads from the left operand to the right one |
| `VmLaws.TruthValues` | cs/logic/VM.cxx:454-471 | projection says whether an operand differs from zero, negation the opposite, twice negation is projection |
| `VmLaws.TruthIsCompared` | cs/logic/VM.cxx:406-421 | the boolean comparisons compare projections |
| `VmLaws.PushStep` | cs/logic/VM.cxx:195-199 | the number that is encoded behind the opcode is pushed |
| `VmLaws.ShortPushes` | cs/logic/VM.cxx:278-299 | the pushes without an argument |
| `VmLaws.PopUndoesPush` | cs/logic/VM.cxx:286-293 | a pop undoes a push |
| `VmLaws.PopStep` | cs/logic/VM.cxx:286-293 | a pop takes off the last entry |
| `VmLaws.EnterStep` | cs/logic/VM.cxx:200-204 | room filled with zeros |
| `VmLaws.LeaveStep` | cs/logic/VM.cxx:205-221 | what is taken off, and exactly when that fails |
| `VmLaws.LeaveUndoesEnter` | cs/logic/VM.cxx:200-221 | leaving gives back the room made by entering |
| `VmLaws.CheckLengthExactly` | cs/logic/VM.cxx:222-231 | passes if and only if the stack has that many entries from the frame on |
| `VmLaws.LoadAfterStore` | cs/logic/VM.cxx:232-253 | a load brings back what was stored at the same offset, and no other entry has changed |
| `VmLaws.StoreAfterLoad` | cs/logic/VM.cxx:232-253 | storing back what was loaded changes nothing |
| `VmLaws.LoadFailsExactly` | cs/logic/VM.cxx:243-253 | exactly which offsets are errors of a load |
| `VmLaws.StoreFailsExactly` | cs/logic/VM.cxx:232-242 | exactly which offsets are errors of a store |
| `VmLaws.ReferenceLoads` | cs/logic/VM.cxx:254-265 | loading through a new reference to an operand is the direct load |
| `VmLaws.ReferenceStores` | cs/logic/VM.cxx:266-277 | storing through a new reference to an operand is the direct store |
| `VmLaws.JumpLands` | cs/logic/VM.cxx:472-476 | a jump within the block lands as far behind itself as it says |
| `VmLaws.TestsSkip` | cs/logic/VM.cxx:511-526 | of the two tests one skips and the other goes on, by the projection of the operand |
| `VmLaws.CallReturns` | cs/logic/VM.cxx:477-510 | a callee that only returns leads behind the CALL with address and arguments taken off and everything else as it was |
| `VmLaws.LoadStringStep` | cs/logic/VM.cxx:159-171 | the bytes behind the length are kept |
| `VmLaws.CreateVarAsks` | cs/logic/VM.cxx:308-327 | the world is asked for a variable with the string kept, a bool for a negative number of states, and the string is used up |
| `VmLaws.ImportExactly` | cs/logic/VM.cxx:328-342 | a reference with its argument if and only if the variable is known |
| `VmLaws.CreateStaticOnce` | cs/logic/VM.cxx:352-367 | a static variable is new once, and creating it again leaves it alone |
| `VmLaws.ForeignLoad` | cs/logic/VM.cxx:254-265 | a load through a variable of the world asks it once and pushes what it answers, or fails |
| `VmLaws.ForeignStore` | cs/logic/VM.cxx:266-277 | a store through a variable of the world asks it once and takes reference and value off the stack, or fails |
| `VmLaws.PrintStep` | cs/logic/VM.cxx:527-531 | printing a number takes it off the stack |
| `VmLaws.QuietStep` | cs/logic/VM.cxx:532-537 | printing the string and doing nothing change nothing |
| `VmLaws.TerminateStep` | cs/logic/VM.cxx:193-194 | the run ends well |
| `VmLaws.UnknownOpcode` | cs/logic/VM.cxx:538-541 | opcodes without an instruction are errors |
| `VmMachine.Machine.ExecuteBinary` | cs/logic/VM.cxx:368-453 | two-operand instructions, truncating division and its zero check |
| `VmMachine.Machine.ExecuteTruth` | cs/logic/VM.cxx:454-471 | one-operand instructions |
| `VmMachine.Machine.ExecuteJump` | cs/logic/VM.cxx:472-476 | relative jump, ignored when invalid |
| `VmMachine.Machine.ExecuteTestFalse` | cs/logic/VM.cxx:511-518 | conditional skip on zero |
| `VmMachine.Machine.ExecuteTestTrue` | cs/logic/VM.cxx:519-526 | conditional skip on nonzero |
| `VmMachine.Machine.ExecuteOne` | cs/logic/VM.cxx:189-543 | one turn of the loop is one step of the specification |
| `VmMachine.Machine.Execute` | cs/logic/VM.cxx:189-543 | the loop, started in any valid state and for any number of turns, ends, fails or gets as far as the steps of the specification do |
| `ProgramLayout.Serialize` | cs/logic/Driver.cxx:50-76 | what is appended to the output |
| `ProgramLayout.Layout` | cs/logic/Driver.cxx:50-76 | where guard, size, preamble and its end stand in the output |
| `ProgramLayout.PreamblesStand` | cs/logic/Driver.cxx:54-60 | the preambles of the commands stand one after the other behind the guard |
| `ProgramLayout.BodiesStand` | cs/logic/Driver.cxx:72-75 | the bodies stand one after the other behind the preamble up to the end, each made for the offset where it stands |
| `ProgramLayout.ProgramStartsRight` | cs/logic/Driver.cxx:50-76 | two steps reach the first body byte in normal mode and the first preamble byte in preamble mode, all stacks unchanged |
| `ProgramLayout.PreambleEnds` | cs/logic/Driver.cxx:60-60 | the last preamble byte ends the run |
| `PacketScheduler.Without` | cs/commandstation/UpdateProcessor.hxx:96-98 | removing a source removes it everywhere and nothing else |
| `PacketScheduler.WithoutConcat` | cs/commandstation/UpdateProcessor.hxx:96-98 | removing keeps the order of what stays |
| `PacketScheduler.WithoutOne` | cs/commandstation/UpdateProcessor.hxx:96-98 | what removing does to one entry |
| `PacketScheduler.Highest` | cs/commandstation/UpdateProcessor.hxx:103-113 | an index of the highest priority if any is exclusive |
| `PacketScheduler.CallUpdates` | cs/commandstation/UpdateProcessor.cxx:83-116 | which update a call sends, puts back or drops |
| `PacketScheduler.UpdatesAreConserved` | cs/commandstation/UpdateProcessor.cxx:68-116 | over any run each reported update is pending, sent with its own code, or dropped for an unknown source, counted with multiplicity |
| `PacketScheduler.SendNeeds` | cs/commandstation/UpdateProcessor.cxx:104-133 | what a packet needs of its source's last time |
| `PacketScheduler.SendStamps` | cs/commandstation/UpdateProcessor.cxx:137-140 | only the source served gets a new time |
| `PacketScheduler.PacketsAreSpaced` | cs/commandstation/UpdateProcessor.cxx:84-140 | two packets for one source are the delay apart unless the later is exclusive or the source was added again within the delay |
| `PacketScheduler.AddKeepsSpacingExactly` | cs/commandstation/UpdateProcessor.hxx:63-71 | for adding a known source at time t: when no later packet can come too early, for background and for urgent packets |
| `PacketScheduler.ReAddBreaksSpacing` | cs/commandstation/UpdateProcessor.hxx:63-71 | two background packets one time unit apart after adding a source again |
| `PacketScheduler.LookedAtIsServed` | cs/commandstation/UpdateProcessor.cxx:119-136 | a source the scan looks at gets the packet or had one within the delay |
| `PacketScheduler.ScanApproaches` | cs/commandstation/UpdateProcessor.cxx:119-136 | a scan that misses an index comes nearer to it |
| `PacketScheduler.BackgroundIsFair` | cs/commandstation/UpdateProcessor.cxx:117-141 | with n sources, n calls that reach the background loop serve every index, with any other calls and updates between them and no source added or removed meanwhile |
| `PacketScheduler.AddKeepsExclusiveExactly` | cs/commandstation/UpdateProcessor.hxx:63-92 | adding a source, known or not, keeps the exclusive index at a highest exclusive priority if and only if it fits |
| `PacketScheduler.HighestIsLastTop` | cs/commandstation/UpdateProcessor.hxx:103-113 | the recomputed index is k if and only if the k-th remaining source is exclusive, none is higher and every later one is lower |
| `PacketScheduler.RemoveKeepsExclusiveExactly` | cs/commandstation/UpdateProcessor.hxx:94-114 | removing a source makes the index right if and only if the last one of the highest exclusive priority among the rest is not the one at the index that reads as "none" |
| `PacketScheduler.ExclusiveAlwaysHighestExactly` | cs/commandstation/UpdateProcessor.hxx:63-114 | over any run it is always right if and only if every event fits |
| `PacketScheduler.ServesRightExactly` | cs/commandstation/UpdateProcessor.cxx:84-149 | a call serves a source of the highest exclusive priority if one is exclusive, leaving updates and background alone, and no exclusive packet otherwise, if and only if the index is right |
| `PacketScheduler.HighestIsServedExactly` | cs/commandstation/UpdateProcessor.cxx:84-149 | over any run every call does, by the priorities of the listed sources, if and only if every event fits |
| `PacketScheduler.FreshSourcesFit` | cs/commandstation/UpdateProcessor.hxx:63-114 | fewer than 2047 sources, none added twice, always fit |
| `PacketScheduler.ExclusiveAtTheLimit` | cs/commandstation/UpdateProcessor.hxx:80-81 | with 2047 sources the next exclusive one reads as "none" |
| `PacketScheduler.ReAddKeepsStaleExclusive` | cs/commandstation/UpdateProcessor.hxx:68-92 | the exclusive source added again with a low priority stays the exclusive one |
| `UpdateProcessors.UpdateProcessor.NotifyUpdate` | cs/commandstation/UpdateProcessor.cxx:68-75 | appends to the queue |
| `UpdateProcessors.UpdateProcessor.AddRefreshSource` | cs/commandstation/UpdateProcessor.hxx:63-92 | the new source, the exclusive index and the result |
| `UpdateProcessors.UpdateProcessor.RemoveRefreshSource` | cs/commandstation/UpdateProcessor.hxx:94-114 | removal and the recomputed exclusive index |
| `UpdateProcessors.UpdateProcessor.FindExclusive` | cs/commandstation/UpdateProcessor.hxx:103-113 | the loop finds the last index of the highest exclusive priority |
| `UpdateProcessors.UpdateProcessor.NextUrgent` | cs/commandstation/UpdateProcessor.cxx:95-116 | first urgent update: dropped, put back or sent |
| `UpdateProcessors.UpdateProcessor.NextBackground` | cs/commandstation/UpdateProcessor.cxx:117-136 | once round the sources |
| `UpdateProcessors.UpdateProcessor.Entry` | cs/commandstation/UpdateProcessor.cxx:79-149 | packet and new state of a call |
| `EventStore.ComputeWidth` | cs/custom/MemorizingEventHandler.cxx:126-132 | the least width from 2 to 32 that holds the block size, with the 32-bit overflow of the loop's bound |
| `EventStore.BlocksApartExactly` | cs/custom/MemorizingEventHandler.cxx:134-134 | blocks share no bits if and only if the last one starts below 2^32 |
| `EventStore.GetBlockFileOffset` | cs/custom/MemorizingEventHandler.cxx:123-139 | the bytes and shift cover the block's bits, in at most five bytes |
| `EventStore.CodeFits` | cs/custom/MemorizingEventHandler.cxx:189-204 | the number stored for an event is not zero and fits, so the assertion never fires |
| `EventStore.CodeIsAnEvent` | cs/custom/MemorizingEventHandler.cxx:182-186 | every number a block can hold stands for an event of that block |
| `EventStore.SaveThenGet` | cs/custom/MemorizingEventHandler.cxx:189-214 | a save is read back from its block and leaves every block that shares no bits with it |
| `EventStore.WrappedSaveLeaks` | cs/custom/MemorizingEventHandler.cxx:134-134 | with a block behind the wrap, saving it into an empty file makes block 0 read as known |
| `EventStore.ReadsLatestExactly` | cs/custom/MemorizingEventHandler.cxx:170-214 | over all files, saves and blocks, each block reads its latest event and the others what they held before, if and only if the last block starts below 2^32 bits |
| `EventStore.EmptyIsUnknown` | cs/custom/MemorizingEventHandler.cxx:179-184 | an empty file holds no event |
| `EventStore.FirstSaveSetsBit` | cs/custom/MemorizingEventHandler.cxx:189-214 | the first event of a block sets the lowest bit of the block in an empty file |
| `EventStore.MemorizingHandlerManager.GetBlockFromFile` | cs/custom/MemorizingEventHandler.cxx:170-187 | reads the map, whatever sizes the system reads in |
| `EventStore.MemorizingHandlerManager.SaveValidEventToFile` | cs/custom/MemorizingEventHandler.cxx:189-214 | read, modify, write gives the saved file |
| `FileBytes.PatchChangesField` | cs/custom/MemorizingEventHandler.cxx:200-213 | the block's bits change to the value and no other bit of the file changes |
| `FileBytes.FieldRead` | cs/custom/MemorizingEventHandler.cxx:176-180 | shifting and masking the bytes read is that field of the file |
| `FileBytes.ConfigFile.ReadRepeated` | cs/custom/MemorizingEventHandler.cxx:141-156 | all bytes in any number of pieces, zeros behind the end |
| `FileBytes.ConfigFile.WriteRepeated` | cs/custom/MemorizingEventHandler.cxx:158-168 | all bytes in any number of pieces |
| `FileBytes.WriteSplit` | cs/custom/MemorizingEventHandler.cxx:158-168 | two partial writes are one |
| `TrainReconcile.SwapOutRemoves` | cs/commandstation/AllTrainNodes.cxx:503-511 | moving the last slot into a deleted one loses no other node |
| `TrainReconcile.UpAfterDown` | cs/commandstation/AllTrainNodes.cxx:510-510 | the wrapping index comes back to the same slot |
| `TrainReconcile.AllTrainNodes.FindEntry` | cs/commandstation/TrainDb.hxx:141-153 | found, whatever the hint, if and only if the database has the node |
| `TrainReconcile.AllTrainNodes.FindNode` | cs/commandstation/AllTrainNodes.cxx:161-168 | the slot of a node, if there is one |
| `TrainReconcile.AllTrainNodes.DeleteAt` | cs/commandstation/AllTrainNodes.cxx:503-512 | one deletion in place |
| `TrainReconcile.AllTrainNodes.DeleteUnknown` | cs/commandstation/AllTrainNodes.cxx:498-513 | exactly the nodes without a database entry go; the loop ends |
| `DriveModes.ImplementationMatches` | cs/commandstation/AllTrainNodes.cxx:562-604 | a train that is made has the kind of address its drive mode names |
| `DriveModes.NotImplementedExactly` | cs/commandstation/AllTrainNodes.cxx:562-604 | which drive modes cannot be made on the target: those that name no kind of address and the two DCC modes with open speed steps |
| `DriveModes.AddressTypesAre` | cs/commandstation/AllTrainNodes.cxx:562-604 | the kind of address by the number of the mode, short up to 127 |
| `DriveModes.SameProtocolExactly` | cs/commandstation/FindProtocolDefs.cxx:108-118 | two modes have the same protocol if and only if they are the same, both Marklin or both DCC |
| `TrainReconcile.AllTrainNodes.CreateImpl` | cs/commandstation/AllTrainNodes.cxx:562-613 | a node is added if and only if the drive mode has an implementation, and it is the node the database names |
| `TrainReconcile.AllTrainNodes.CreateMissing` | cs/commandstation/AllTrainNodes.cxx:514-526 | missing nodes are added once, every index is the last entry for its node |
| `TrainReconcile.AllTrainNodes.UpdateConfig` | cs/commandstation/AllTrainNodes.cxx:496-527 | no empty slot, no node twice, exactly the nodes wanted, each with a right index |
| `FindProtocol.SkipToDigit` | cs/commandstation/FindProtocolDefs.cxx:78-78 | skipping adds no digit |
| `FindProtocol.DigitCharacters` | cs/commandstation/FindProtocolDefs.cxx:56-56 | the characters that count as digits |
| `FindProtocol.PrintedDigits` | cs/commandstation/FindProtocolDefs.cxx:71-103 | a printed number has the digits of the number, in the order they are compared |
| `FindProtocol.MatchDigits` | cs/commandstation/FindProtocolDefs.cxx:72-89 | the loop over the query's digits decides whether they begin those of the name |
| `FindProtocol.AttemptMatch` | cs/commandstation/FindProtocolDefs.cxx:71-103 | no match, prefix match or exact match of the query's digits with those from a position on |
| `FindProtocol.MatchName` | cs/commandstation/FindProtocolDefs.cxx:243-272 | the best result over all digit groups, by the overwrite rule |
| `FindProtocol.NameMatchesExactly` | cs/commandstation/FindProtocolDefs.cxx:243-278 | nonzero exactly when the query's digits begin those from some group (and are all of them when exactness is asked); exact exactly when they are all of them |
| `FindProtocol.HasQuery` | cs/commandstation/FindProtocolDefs.cxx:59-68 | is there any digit |
| `FindProtocol.ReadDigits` | cs/commandstation/FindProtocolDefs.cxx:123-138 | the number the query's digits make, and whether a zero comes first |
| `FindProtocol.QueryToAddress` | cs/commandstation/FindProtocolDefs.cxx:121-159 | address and drive mode of a query |
| `FindProtocol.QueryModeMeans` | cs/commandstation/FindProtocolDefs.cxx:139-157 | a leading zero in DCC or without a protocol means a long address; otherwise the mode is the one asked for or filled in |
| `FindProtocol.AllocationCanBeMadeExactly` | cs/commandstation/FindProtocolDefs.cxx:140-151 | with the initial defaults an allocation can be made if and only if it names Marklin, DCC or nothing |
| `FindProtocol.AllocationKeepsChoices` | cs/commandstation/FindProtocolDefs.cxx:139-151 | an allocation keeps the protocol and everything else that was asked for, and fills in each open choice from its own default |
| `FindProtocol.MatchEventToDriveMode` | cs/commandstation/FindProtocolDefs.cxx:108-118 | the restriction to a protocol |
| `FindProtocol.AddressToQuery` | cs/commandstation/FindProtocolDefs.cxx:162-180 | the event that asks for an address |
| `FindProtocol.AddressRoundTrip` | cs/commandstation/FindProtocolDefs.cxx:162-180 | address to query and back is the identity if and only if the address is below a million; the exact flag is kept |
| `FindProtocol.AddressQueryDigits` | cs/commandstation/FindProtocolDefs.cxx:162-180 | what is then looked for in names is the decimal form of the address |
| `FindProtocol.AddressQueryFindsExactly` | cs/commandstation/FindProtocolDefs.cxx:183-218 | asking for an address below a million finds exactly the trains with that address and a mode that suits the one asked for |
| `FindProtocol.FlagIsBit` | cs/commandstation/FindProtocolDefs.cxx:228-236 | a flag is one binary digit of the event |
| `FindProtocol.IsAddressPrefix` | cs/commandstation/FindProtocolDefs.cxx:217-226 | the loop of divisions finds exactly the proper decimal prefixes |
| `FindProtocol.MatchQueryToNode` | cs/commandstation/FindProtocolDefs.cxx:183-286 | for each of the five answers, exactly when it is given |
| `Crc.ShiftStep` | cs/custom/Crc32.h:49-55 | one bit through the register is doubling modulo the generator |
| `Crc.RegisterDivides` | cs/custom/Crc32.h:47-56 | the register is what division of init * x^(8n) + message * x^32 leaves over |
| `Crc.RegisterIsRemainder` | cs/custom/Crc32.h:43-56 | a value below 2^32 is that remainder if and only if it is the register |
| `Crc.RemainderUnique` | cs/custom/Crc32.h:47-56 | division by the generator leaves one remainder |
| `Crc.BurstsAreDetected` | cs/custom/Crc32.h:43-56 | messages that differ only within 32 consecutive bits have different checksums |
| `Crc.Widths` | cs/custom/Crc32.h:49-52 | the constant is a generator of degree 32 with a constant term |
| `Crc.Crc32.Add` | cs/custom/Crc32.h:47-56 | the loop in place adds one byte to the message |
| `Crc.Crc32.Get` | cs/custom/Crc32.h:58-61 | complements the register; it is the checksum if and only if an even number of reads came before |
| `Crc.RegisterInjective` | cs/custom/Crc32.h:47-56 | different registers stay different whatever is added |
| `Crc.ReadsHarmlessExactly` | cs/custom/Crc32.h:58-61 | after k reads in the middle of a message the checksum read at its end is right if and only if k is even |

## Left out

- The wiring tables of the layouts, train rosters, and scene and blink automata: configuration and one-pass tables.
- The magnet pause plug-in, which can change the driver's state while a coil is on.
- The boot pass in `StInit`; runs start behind it, with all bits zero.
- Simulated occupancy and debounce timing: a release is any clearing of a route bit at any time, also of a route that a train still uses.
- Chained turnouts: `RouteLine` is a line of straight and detector pieces; turnouts and double slips are covered one by one in `Interlock`.
- RouteLine.AllOrNothing: speaks of runs in which the requester has not yet taken the answer and no route of that direction is released, as either would change the bits it compares.
- Concurrency inside one call of the packet scheduler: other threads act between calls, not between its critical sections.
- PacketScheduler.UpdatesAreConserved: the pool of buffers and its exhaustion are not modelled.
- The 15-bit widths of the scheduler's indexes.
- Packet contents; a packet is its source and the code asked for.
- VmMachine.Machine.Execute: takes a bound on the number of turns, because the source's loop need not end; every finite part of a run is covered.
- Operand overflow: operands are unbounded integers; addresses and frame pointers do wrap at 32 bits.
- A relative skip that leaves the block at its front, where the source's behaviour is undefined, ends the run in the model.
- The parser, symbol table and commands of the logic language; a command is the preamble it emits and the body it emits at an offset.
- Varint.ParseVarint: integers are unbounded, so an encoding longer than 32 bits is decoded in full.
- FdiXml.FdiXmlGenerator.Read: texts are sequences of characters without a zero byte, and decimal rendering is unbounded.
- FdiXml.TrainFdiSpace.Read: the database entry does not change between two resets of the generator, and every train has an entry.
- The identity of the objects behind the train slots: slots hold values.
- Shift, mask and or on bytes are written as division, remainder and sum on disjoint bits.
- FindProtocol.AddressToQuery: only the low half of an event; digits beyond the sixth would damage the other half.
- Turning typed text into a query, and the bus, memory and hardware plumbing around all of this.
- Vm.StepKeepsValid: what variables other than operands and static ones answer is a given sequence, over all of which the results hold; a reference keeps its number, so that making a variable anew under a number in use redirects references which would dangle in the source.
- TrainReconcile.AllTrainNodes.CreateImpl: a node stands for a kind of address and an address, the number computed from them is library code; the fake drive mode, which exists on hosts only, is not made.
- EventStore.SaveThenGet: `lseek` does not fail, the file holds little-endian bytes, and errors of read and write end the program.
- SignalRuns.SignalSafeExactly: the reset bit is not set in these runs, and the piece ahead answers only requests that are outstanding.
- TrackPieces.TrackPiece.SimulateRoute: the rules of the boot state `StInit` are not part of it.
- FlipFlopProgress.EveryClientIsServed: runs in which a turn is lent out are in `FlipFlopStealing`; which of several thieves gets the loan is not bounded, as those after the owner come first.
- SignalLine.SignalsAllOrNothing: the accepting signal stays a stopping one; what passes through it belongs to the line behind it and the one ahead.

# Refrigerator controllers: a verified model

This project models the controllers of a refrigerator's main board and proves what they promise.

- **Defrost** (`Defrost*.dfy`, `HeaterOnTimeCounter.dfy`): an eleven-state hierarchical machine that drives heaters,
  compressor, fans, dampers and valve through vote records, chooses Full or SecondaryOnly defrosts, and recovers after
  a power cut, together with the counters of heater minutes that end HeaterOn when temperatures never do. The heater
  interlock and the bounds on heating are in `DefrostProperties`, what needs no assumption on the run in
  `DefrostTiming` and `HeatInEveryRun`, the schedule in `DefrostSchedule`, and the sequels in `WholeDefrost`,
  `AbnormalDefrosts`, `StrandedHeater`, `EmptyVisits` and `ExtraMinute`. `DefrostTable` says a second time, event by
  event and from the readings alone, what the machine does; `DefrostTransitions`, `DefrostExactly` and `DefrostVotes`
  prove that it does, and `DefrostRecovery`, `DefrostRecords` and `SkippedDecisions` draw on it.
- **Ready to defrost** (`ReadyToDefrost*.dfy`, `Readiness*.dfy`): compressor run time and weighted door-open time become
  a readiness decision, with one re-armed timer and integer division; that readiness comes, and exactly when, is in
  `ReadinessComes`.
- **Auger motor** (`AugerMotor*.dfy`), **damper** (`Damper*.dfy`) and **cabinet temperature monitor**
  (`TemperatureMonitor*.dfy`): timed machines over relays, a stepper motor and a fault.
- **UART ring buffer** (`DtcRingModel.dfy`, `BufferedUart.dfy`) and **input capture** (`InputCapture*.dfy`): code that
  shares memory with hardware and with interrupts.

## How the project is built

Each controller has two forms. A `...Model` module describes it as a value and a `Step` function over events, with
history kept beside the real state (visits, decisions, relay writes, true times). A class has the fields of the
original, updates them in the original's order, and loops where the original loops; each of its methods is proved to go
exactly where `Step` goes. What holds of every run is then proved about `Step`, by an invariant that every event keeps.
For Defrost the flat `Step` has the hierarchy of states resolved; the class exits and enters state by state and offers
signals to parents, and `BubbleIsSend` connects the two.

`dafny verify dfyconfig.toml` checks the whole project.

## What is assumed of the frameworks

The state-machine, timer and data-model libraries are not part of this model. They are taken to work like this.

- A transition runs exits up to the lowest common ancestor, then entries down. Idle to Idle leaves and re-enters Idle.
  A signal that a leaf defers goes to its parent.
- Starting a timer replaces it, stopping cancels it, a one-shot timer is stopped when it calls back, and time cannot
  pass an armed timer. The ticks since a timer was last started go on counting after it has expired or was stopped.
- A write to the data model publishes at once, and only when the value changes. A record written by a controller that
  the same controller would answer with no signal is not shown as an event.
- RAM starts as zero. Saved records survive a power cycle with any contents. A zero test request asks for Idle.
- The defrost vote of a heater wins, so a heater's counter sees that vote.
- The DTC in repeat mode counts its transfers from fifty down to one and starts over.
- A state is looked at when a signal and its nested transitions are finished.

## What was found

Six promises do not hold of the code as it stands. Each has a lemma that exhibits it and one that says exactly when
the promise is kept.

- A heater can be left on outside HeaterOn. If the convertible compartment becomes a freezer during a SecondaryOnly
  defrost its evaporator becomes a primary one, and a state test request then leaves HeaterOn without releasing it
  (`RoleChangeThenTestStrandsHeater`, `InterlockExactly`, `InterlockedExactlyByTameRuns`). `StrandingIsReachable`
  reaches this after a power cut. Until the next HeaterOn visit nothing that temperatures or minute counts do
  turns such a heater off (`StrandedExactlyUntil`), and that time has no bound (`StrandedHeaterTimeIsUnbounded`).
  The next visit may last a minute longer than the max-on-time, and no more than that (`ExtraMinuteIsNeeded`,
  `HeatIsBoundedInEveryRun`).
- HeaterOn can last for any time. On a platform with fewer than two evaporators a test for a SecondaryOnly defrost turns
  on no heater, and then no max-on-time ends the visit (`EmptyVisitIsReachable`). A visit is bounded exactly when its
  type turns on a heater (`VisitIsBoundedExactly`), and from a known saved type visits that do not are met
  exactly on such platforms (`EmptyVisitExactly`). What ends one is listed by `EmptyVisitEndsExactly`.
- The abnormal event can come twice in one HeaterOn visit. This needs a fitted convertible heater whose two role
  thresholds are distinct, positive and below the max-on-time, and a role change in the visit (`AbnormalComesOnce`).
  In every such configuration a run from start-up has it (`AbnormalComesTwice`, `AbnormalTwiceExactly`).
- A defrost can begin with no decision of its type. A test request for Idle that is taken in PostDwell sets the flag
  that suppresses the next decision, but no Idle is left until the next defrost begins, so that one repeats the type of
  the last (`IdleTestRepeatsType`). Nothing else leaves the flag set (`DecisionIsSkippedExactly`).
- Readiness can be asserted with less than the minimum compressor time on record, because the helper at
  src/Application/Defrost/ReadyToDefrost.c:533-543 leaves the minimum timer running when the compressor stops with all
  doors shut (`StoppedCompressorCutsMinimumShort`, `MinimumIsKeptExactlyWhenRunning`). The shortfall is less than a
  minute (`CompressorTimeBeforeReadiness`).
- A damper can rest where nobody asked for it, when a vote that changes nothing is delivered in Idle and the request is
  reversed before the move it starts has completed (`RepeatedVoteThenReversalStrands`, `FaithfulExactly`).

## Model

| member | source | states |
|---|---|---|
| DefrostProperties.InterlockExactly | src/Application/Defrost/Defrost.c:1897-2039 | one step from any invariant state keeps every heater off outside HeaterOn if and only if it is not a state test request that finds a primary heater on in a SecondaryOnly defrost |
| DefrostProperties.UntamedStepStrandsHeater | src/Application/Defrost/Defrost.c:2011-2032 | the other direction in one step: such a request leaves a heater voted on outside HeaterOn |
| DefrostProperties.RoleChangeThenTestStrandsHeater | src/Application/Defrost/Defrost.c:2443-2457 | the failing family: on a three-evaporator platform, changing the convertible compartment to a freezer during a SecondaryOnly defrost and then requesting a test state strands its heater |
| DefrostProperties.StrandingIsReachable | src/Application/Defrost/Defrost.c:1248-1284 | the family is reached: every SecondaryOnly defrost resumed after a power cut meets it after four possible events |
| DefrostProperties.ReleaseIsKept | src/Application/Defrost/Defrost.c:2011-2032 | a step that moves no evaporator between the groups while heaters are on keeps it so that leaving HeaterOn releases every heater that is on |
| DefrostProperties.RunKeeps | src/Application/Defrost/Defrost.c:1586-2213 | for all possible runs of tame events the whole invariant of the machine is kept |
| DefrostProperties.InterlockedExactlyByTameRuns | src/Application/Defrost/Defrost.c:1897-2039 | a whole run from any invariant state keeps every heater off outside HeaterOn from end to end if and only if it has no such request |
| DefrostProperties.FixedGroupsAreTame | src/Application/Defrost/Defrost.c:172-253 | for all runs, if no role change moves an evaporator between the groups while heaters are on, no step of the run is of the failing kind |
| DefrostProperties.FixedGroupsKeepInterlock | src/Application/Defrost/Defrost.c:172-253 | so a run from start-up whose evaporators keep their groups while heaters are on keeps the interlock from end to end |
| DefrostProperties.HeatersNeedStillAir | src/Application/Defrost/Defrost.c:952-1059 | in every state that a possible run from start-up reaches without a request of the failing kind, role changes at any time included, a heater that is voted on is in HeaterOn, on a fitted evaporator, and the state's load settings hold compressor and every fan off |
| DefrostProperties.HeaterTimeIsBounded | src/Application/Defrost/Defrost.c:1921-1942 | in every such state, with max-on-times at most limit minutes, every heater that is on, and every HeaterOn visit whose type turns on a heater, has lasted at most limit minutes, and each running count and its ticks add up to the visit's true time; EmptyVisits.VisitIsBoundedExactly says that no other visit is bounded |
| DefrostProperties.CounterNeverWraps | src/Application/Defrost/Defrost.c:2334-2375 | in every such state the minute that a counter publishes is the true number of minutes of the visit: the eight-bit count never wraps |
| DefrostProperties.HeaterOnIsNeverIdle | src/Application/Defrost/Defrost.c:1544-1573 | in every such HeaterOn state, if the type selects any heater, some fitted heater is on: turning the last one off is leaving |
| DefrostProperties.TypeSelectsAHeater | src/Application/Defrost/Defrost.c:172-253 | that condition in terms of the platform: Full with any evaporator fitted, or SecondaryOnly with at least two |
| EmptyVisits.VisitIsBoundedExactly | src/Application/Defrost/Defrost.c:1897-2039 | a HeaterOn visit of a run from start-up without failing requests is bounded by the max-on-times in all its continuations if and only if its type turns on a heater on the platform |
| EmptyVisits.EmptyVisitEndsExactly | src/Application/Defrost/Defrost.c:1897-2039 | a visit whose type turns on none is ended by exactly these events: a power cut, disabling, any test request, and a valid evaporator temperature at its termination value |
| EmptyVisits.EmptyVisitIsReachable | src/Application/Defrost/DefrostTestRequestHandler.c:117-121 | the failing family: with fewer than two evaporators a test for a SecondaryOnly defrost from Idle leads from start-up to a HeaterOn visit with every heater off, which lasts for any time whatever |
| EmptyVisits.EmptyVisitExactly | src/Application/Defrost/Defrost.c:172-253 | such a visit can be reached from a known saved type if and only if fewer than two evaporators are fitted |
| HeatInEveryRun.HeatIsBoundedInEveryRun | src/Application/Defrost/Defrost.c:1897-2039 | in every possible run from start-up, stranded heaters and requests of the failing kind included, a HeaterOn visit whose type selects a heater, or in which any heater is on, has lasted at most the limit and one minute: a count past its limit ends with the next minute, and one about to wrap starts over once |
| HeatInEveryRun.StepBounds | src/Application/Defrost/Defrost.c:1586-2213 | every event that can happen keeps the bound of each heater that is on, whatever its count was on entering HeaterOn |
| StrandedHeater.StrandedExactlyUntil | src/Application/Defrost/Defrost.c:1586-2213 | one step of a machine in the states before HeaterOn leaves a heater that is on there on, if and only if it is no power cut, no disabling and no exit request in HeaterOnEntry: no temperature, timer or minute count turns it off |
| StrandedHeater.StrandedHeaterStaysOn | src/Application/Defrost/Defrost.c:1586-2213 | over any run that stays in those states without a power cut, such a heater stays on, whatever happens in it |
| StrandedHeater.StrandedCountWraps | src/Application/Defrost/DefrostHeaterOnTimeCounter.c:42-50 | while Idle lasts, the count of such a heater runs past every max-on-time and wraps at 256 minutes, and the heater stays on |
| StrandedHeater.StrandedHeaterTimeIsUnbounded | src/Application/Defrost/Defrost.c:1248-1284 | from start-up, for every number of minutes, a possible run after which the convertible heater has been on that long in Idle, whatever the max-on-times |
| AbnormalDefrosts.AbnormalComesOnce | src/Application/Defrost/Defrost.c:2334-2375 | in every state of HeaterOn that a run from start-up without a failing request reaches, the abnormal event of a heater has come at most once in the visit, but for a convertible heater whose role changed in it, fitted, with two distinct positive thresholds below the limit of the max-on-times; then at most twice |
| AbnormalDefrosts.AbnormalComesTwice | src/Application/Defrost/Defrost.c:2362-2375 | the converse: for every such configuration this run from start-up has the event twice in one visit |
| AbnormalDefrosts.AbnormalTwiceExactly | src/Application/Defrost/Defrost.c:2334-2375 | so a second event in a visit is reachable if and only if the configuration is of that kind |
| AbnormalDefrosts.AbnormalDefrostStaysOnRecord | src/Application/Defrost/Defrost.c:1939-1963 | a heater declared abnormal in a visit stays on record as abnormal for the rest of it with its count at or above the threshold, the convertible heater too unless its role has changed in the visit |
| DefrostTiming.HeatersWaitTheFullDelay | src/Application/Defrost/Defrost.c:1861-1907 | in every HeaterOn state of every possible run, stranded heaters and power cycles included, the visit before was HeaterOnEntry and lasted exactly the parametric delay, with air held still in both |
| DefrostTiming.TimerTable | src/Application/Defrost/Defrost.c:1740-2172 | in every state of every possible run the defrost timer is armed exactly in the five timed states, the saved state is the leaf's, and no test request is left over |
| DefrostTiming.TimedStatesLastTheirPeriod | src/Application/Defrost/Defrost.c:1740-2172 | in every possible run no timed state outlasts its parametric period, and at its timer's expiry all but Prechill have lasted exactly that long |
| DefrostTiming.WaitingIsBounded | src/Application/Defrost/Defrost.c:1740-2172 | in every possible run from start-up the time that the present defrost has spent outside HeaterOn, and has left in its present state, is within the sum of the periods of the states up to it |
| DefrostTiming.StepKeepsTime | src/Application/Defrost/Defrost.c:1586-2213 | every event that can happen keeps all of that, with no assumption on roles, test requests or heaters |
| WholeDefrost.WholeDefrostIsBounded | src/Application/Defrost/Defrost.c:1740-2172 | if the types of a run without failing requests turn on heaters, the time of a whole defrost, waiting and heating, from leaving Idle or resuming after a power cut to coming back, is within the sum of preparation, prechill, delay, max-on-time limit, dwell and post-dwell |
| WholeDefrost.WholeDefrostIsBoundedInEveryRun | src/Application/Defrost/Defrost.c:1740-2172 | with one minute more, the same of every possible run whose types turn on heaters, stranded heaters included |
| WholeDefrost.TwoEvaporatorsAlwaysHeat | src/Application/Defrost/Defrost.c:386-435 | with two evaporators or more that holds of every possible run from a known saved type |
| WholeDefrost.OneEvaporatorAlwaysHeats | src/Application/Defrost/Defrost.c:386-435 | with one evaporator it holds of every possible run from any saved type, if all three numbers of SecondaryOnly defrosts are zero and no override asks for one |
| ExtraMinute.ExtraMinuteIsNeeded | src/Application/Defrost/Defrost.c:2334-2375 | the minute more is needed: with a delay of at most a minute a possible run from start-up has a HeaterOn visit, its type turning on a heater, that lasts the limit and a minute less the delay, because the count of a stranded heater wraps in it |
| DefrostRuns.PartitionIsDisjointAndCovers | src/Application/Defrost/Defrost.c:172-253 | primary and secondary evaporators are disjoint and together are exactly the evaporators the platform is fitted with |
| DefrostRuns.StepKeeps | src/Application/Defrost/Defrost.c:2215-2458 | every enabled, tame event keeps the invariant, and outside the entry to HeaterOn it neither turns a heater on nor changes the type in HeaterOn |
| DefrostRuns.PowerUpEstablishes | src/Application/Defrost/Defrost.c:2559-2606 | start-up establishes the invariant from any saved records whatever, and never in HeaterOn |
| DefrostRuns.VoteChosenSets | src/Application/Defrost/Defrost.c:1028-1054 | voting for the heaters a type selects sets exactly those heaters' votes, whichever of the two slots they sit in |
| DefrostSchedule.Schedule | src/Application/Defrost/Defrost.c:386-435 | in any run without state test requests or overrides and with N unchanged, the decisions prolong the ones before by the timetable of the starting count, and the count stays at most N |
| DefrostSchedule.FullDefrostsAreNPlusOneApart | src/Application/Defrost/Defrost.c:408-435 | between two Full decisions of that timetable lie exactly N SecondaryOnly ones |
| DefrostSchedule.EveryStepDecides | src/Application/Defrost/Defrost.c:1655-1667 | apart from state test requests a step decides at most one type, and only when it takes the machine out of Idle |
| DefrostSchedule.DisablingDoesNotAdvance | src/Application/Defrost/Defrost.c:2109-2112 | disabling in Idle or PostDwell, any run while disabled, and enabling again ends in Idle with decisions and count unchanged |
| DefrostExactly.EveryEventExactly | src/Application/Defrost/Defrost.c:1586-2458 | in every state of every possible run, every event but a power cut does what its row of a table says that is spelled out from the readings, the records and the fitted evaporators, without signals, parents, nested transitions or slots: the state it leads to through preparation and prechill, all fifteen records, what is read, the decision made or skipped, and the time of a prechill that starts |
| DefrostVotes.EveryVoteExactly | src/Application/Defrost/Defrost.c:1897-2188 | and it leaves each heater voted as its row says: on for the heaters of the type on entering HeaterOn, off from there to PostDwell and in Disabled, withdrawn elsewhere, and a stranded one as it was |
| DefrostVotes.LoadsByState | src/Application/Defrost/Defrost.c:937-1119 | load by load, what each state asks for: the fans on the evaporators' side turn in Prechill only, compressor, condenser fan and two dampers rest from HeaterOnEntry to Dwell, valve and fresh food damper have a setting for each part of a defrost |
| DefrostTransitions.TypesAgree | src/Application/Defrost/Defrost.c:386-435 | the number of SecondaryOnly defrosts before a Full one is the Sabbath one in any Sabbath mode, else the abnormal one if and only if some primary evaporator's last defrost is on record as abnormal; the type is the override, else Full once that number is reached |
| DefrostTransitions.SkipsAgree | src/Application/Defrost/Defrost.c:1612-1638 | prechill is skipped if and only if it is not asked for and the start was too warm, the EEPROM cleared, a thermistor invalid during a defrost, or the last defrost of some compartment there is abnormal |
| DefrostTransitions.OverAgrees | src/Application/Defrost/Defrost.c:1797-1812 | prechill has nothing to do if and only if its time was met before, some valid primary evaporator is at the exit temperature, or some valid cabinet may not be chilled further; the time left is the difference otherwise |
| DefrostTransitions.CabinetsAgree | src/Application/Defrost/Defrost.c:1466-1511 | a cabinet may be chilled further if and only if it freezes and is above its lowest temperature, or does not and is within its band |
| DefrostTransitions.FaultsAgree | src/Application/Defrost/Defrost.c:1747-1755 | preparation gives way to the heaters if and only if the freezer cabinet's thermistor or some evaporator's has been discovered and is invalid |
| DefrostTransitions.ModesAgree | src/Application/Defrost/Defrost.c:494-533 | prechill waits for the compressor and, where there is one, the cooling mode of platform and role |
| DefrostTransitions.SlotsColdAgree | src/Application/Defrost/Defrost.c:2041-2055 | Dwell leads back to Idle if and only if some primary evaporator is at the exit temperature of the type |
| DefrostTransitions.GoesExactly | src/Application/Defrost/Defrost.c:1586-2213 | a whole transition, nested ones included: where it settles, every record, the decision on leaving Idle, the defrosts counted on leaving HeaterOn, and the prechill time left |
| DefrostTable.GroupsByRole | src/Application/Defrost/Defrost.c:172-253 | an evaporator is primary if and only if it is the freezer's, the only one, or the convertible one acting as a freezer; the type heats all fitted ones, or those that are not primary |
| DefrostRecovery.PowerCycleRecovers | src/Application/Defrost/Defrost.c:1248-1284 | in every timely state, so in every state of every possible run, a power cut leads from the four states before and in HeaterOn to HeaterOnEntry and from Dwell to Dwell when the thermistors find nothing too warm, from HeaterOnEntry and HeaterOn to Dwell when they do, and to Idle otherwise and with the EEPROM cleared, with nothing decided, every record as given and every heater off |
| DefrostRecovery.FullComesFirstAfterStart | src/Application/Defrost/Defrost.c:2517-2535 | after a start with the EEPROM cleared, too warm or in Disabled, the first type decided is Full in every possible run whose tests do not replace the override, more power cuts included |
| DefrostRecords.NormalDefrostClearsRecord | src/Application/Defrost/Defrost.c:1944-1963 | in every HeaterOn state of every possible run, a valid temperature at termination leaves the evaporator on record as abnormal if and only if it was and its count has reached the threshold of its role |
| DefrostRecords.OnRecordExactly | src/Application/Defrost/Defrost.c:1939-1963 | so in every such state of a run without a failing request, a heater that is on and ends by temperature, with a positive threshold unchanged in the visit, is on record as abnormal if and only if its abnormal event came in this visit; with a threshold of zero the record stays as it was |
| DefrostRecords.DefrostsAreCounted | src/Application/Defrost/Defrost.c:1121-1155 | over any possible run from start-up, power cuts included, the two sixteen-bit counters of each evaporator count exactly the HeaterOn visits that ended with it heated and the times its published minute was its threshold |
| SkippedDecisions.IdleTestRepeatsType | src/Application/Defrost/Defrost.c:2114-2119 | the failing family: a test that asks for Idle in PostDwell makes the next defrost repeat the type of the last, whatever is read while Idle lasts: nothing is decided and the count stands still |
| SkippedDecisions.DecisionIsSkippedExactly | src/Application/Defrost/Defrost.c:1655-1667 | and nothing else does: after any event of any possible run the next decision is to be skipped if and only if the event was such a test, or it was to be skipped before and the event asked for no state |
| SkippedDecisions.BeginningDecides | src/Application/Defrost/Defrost.c:1655-1667 | a defrost that begins from Idle without a test decides one type if no decision is to be skipped, and none otherwise |
| DefrostController.BubbleIsSend | src/Application/Defrost/Defrost.c:98-115 | handing a deferred signal from a leaf to its parents, one at a time, is the flat machine's response to it |
| DefrostController.Defrost.SettledShows | src/Application/Defrost/Defrost.c:937-1119 | a settled object cares for all eleven load votes in Prechill, HeaterOnEntry, HeaterOn, Dwell and PostDwell and for none elsewhere, and its flags, timer and saved state tell those states apart |
| DefrostController.Defrost.HeaterVoteNeedsStillAirVotes | src/Application/Defrost/Defrost.c:952-1059 | when a settled object has gone where a run without a failing request goes, a heater vote of On means HeaterOn with compressor and every fan voted (Off, Care) |
| DefrostController.Defrost.Happen | src/Application/Defrost/Defrost.c:2215-2458 | whatever happens, the object goes exactly where the machine goes and settles: load votes, flags and timer fit its state, and the published and saved states agree with it |
| DefrostController.Defrost.SendSignal | src/Application/Defrost/Defrost.c:1586-2213 | a signal is offered to the leaf and then to its parents until one consumes it; the new state is the machine's and settled |
| DefrostController.Defrost.Transition | src/Application/Defrost/Defrost.c:98-115 | exits up to the lowest common ancestor, entries down to the target, and whatever the entry transitions to in turn: the new state is the machine's and settled |
| DefrostController.Defrost.PassThroughParents | src/Application/Defrost/Defrost.c:1676-1710 | after the parents between two leaves are left and entered, the waiting and defrosting flags are those of the target's parent |
| DefrostController.Defrost.ExitLeaf | src/Application/Defrost/Defrost.c:1586-2213 | leaving a leaf withdraws every load vote and stops the timer, besides the machine's own changes |
| DefrostController.Defrost.EnterLeaf | src/Application/Defrost/Defrost.c:1586-2213 | from a point where nothing is held over, entering a leaf ends settled in the machine's state |
| DefrostController.Defrost.EnterIdle | src/Application/Defrost/Defrost.c:1591-1610 | entering Idle acts on a pending test request, possibly moving on into a defrost, and settles |
| DefrostController.Defrost.EnterPrechillPrep | src/Application/Defrost/Defrost.c:1747-1770 | entering PrechillPrep skips ahead on an invalid thermistor or when conditions are met, and settles |
| DefrostController.Defrost.EnterPrechill | src/Application/Defrost/Defrost.c:1797-1812 | entering Prechill ends it at once when any exit condition holds, and settles with the time left otherwise |
| DefrostController.Defrost.EnterHeaterOnEntry | src/Application/Defrost/Defrost.c:1868-1876 | entering HeaterOnEntry saves the state, holds the loads off and starts the whole delay |
| DefrostController.Defrost.EnterHeaterOn | src/Application/Defrost/Defrost.c:1904-1919 | entering HeaterOn turns on exactly the selected heaters with the loads held off |
| DefrostController.Defrost.EnterDwell | src/Application/Defrost/Defrost.c:2064-2072 | entering Dwell votes all heaters off, asks for valve homing and starts the dwell time |
| DefrostController.Defrost.EnterPostDwell | src/Application/Defrost/Defrost.c:2141-2148 | entering PostDwell votes all heaters off and starts the time of the defrost type |
| DefrostController.Defrost.EnterDisabled | src/Application/Defrost/Defrost.c:2181-2188 | entering Disabled votes all heaters off and clears both flags |
| DefrostController.Defrost.StateIdle | src/Application/Defrost/Defrost.c:1586-1674 | what Idle consumes and does with each signal, everything else deferred unchanged |
| DefrostController.Defrost.StatePrechillPrep | src/Application/Defrost/Defrost.c:1740-1788 | the same for PrechillPrep |
| DefrostController.Defrost.StatePrechill | src/Application/Defrost/Defrost.c:1790-1859 | the same for Prechill |
| DefrostController.Defrost.StateHeaterOnEntry | src/Application/Defrost/Defrost.c:1861-1895 | the same for HeaterOnEntry |
| DefrostController.Defrost.StateHeaterOn | src/Application/Defrost/Defrost.c:1897-2039 | the same for HeaterOn |
| DefrostController.Defrost.StateDwell | src/Application/Defrost/Defrost.c:2057-2095 | the same for Dwell |
| DefrostController.Defrost.StatePostDwell | src/Application/Defrost/Defrost.c:2135-2172 | the same for PostDwell |
| DefrostController.Defrost.StateDisabled | src/Application/Defrost/Defrost.c:2174-2213 | the same for Disabled |
| DefrostController.Defrost.StatePrechillParent | src/Application/Defrost/Defrost.c:1712-1738 | the same for the parent of the two prechill states |
| DefrostController.Defrost.StateWaitingToDefrost | src/Application/Defrost/Defrost.c:2097-2133 | the same for the waiting parent, whose handlers set the skip flags before they transition |
| DefrostController.Defrost.StateDefrosting | src/Application/Defrost/Defrost.c:1676-1710 | the same for the defrosting parent |
| DefrostController.Defrost.HeaterHasReachedMaxOnTime | src/Application/Defrost/Defrost.c:1921-1937 | turns the heater off, records the fault or the invalid thermistor, and leaves for Dwell exactly when no covered heater is on |
| DefrostController.Defrost.HeaterTemperatureHasChanged | src/Application/Defrost/Defrost.c:1944-2006 | at the termination temperature turns the heater off, clears the fault, and the abnormal record if the count is short of the threshold, and leaves exactly when no covered heater is on; DefrostRecords.OnRecordExactly says what the record then means |
| DefrostController.Defrost.ExitIdle | src/Application/Defrost/Defrost.c:1655-1667 | leaving Idle divides the evaporators and decides the next type unless a skip flag is set |
| DefrostController.Defrost.SetDefrostType | src/Application/Defrost/Defrost.c:408-435 | records one decision: the override if any, else SecondaryOnly while fewer than N have been made, else Full |
| DefrostController.Defrost.ExitHeaterOn | src/Application/Defrost/Defrost.c:2011-2032 | leaving HeaterOn withdraws the selected heaters' votes and the load votes and counts the defrosts |
| DefrostController.Defrost.AllHeatersVotedOff | src/Application/Defrost/Defrost.c:1544-1573 | says whether no primary or secondary evaporator's heater is voted on |
| DefrostController.Defrost.PrimaryAndSecondaryEvaporatorsAreAllValid | src/Application/Defrost/Defrost.c:1513-1542 | says whether every covered evaporator's thermistor is valid |
| DefrostController.Defrost.AnyPrimaryEvaporatorDefrostWasAbnormal | src/Application/Defrost/Defrost.c:369-384 | says whether some primary evaporator's last defrost was abnormal |
| DefrostController.Defrost.PrechillIsOver | src/Application/Defrost/Defrost.c:1797-1810 | says whether any of the prechill exit conditions holds on entry |
| DefrostController.Defrost.PostDwellPrimaryEvapExitConditionIsMet | src/Application/Defrost/Defrost.c:2041-2055 | says whether some primary evaporator is already at the exit temperature of the type |
| DefrostController.Defrost.SetPrimaryEvaporators | src/Application/Defrost/Defrost.c:172-202 | the primary evaporators of the platform and role |
| DefrostController.Defrost.SetSecondaryEvaporators | src/Application/Defrost/Defrost.c:225-253 | the secondary evaporators of the platform and role |
| DefrostController.Defrost.VoteForSelectedHeaters | src/Application/Defrost/Defrost.c:1904-1919 | votes for the primary and secondary heaters of a Full type, or the secondary ones of a SecondaryOnly type, with each counter reacting |
| DefrostController.Defrost.SetHsmStateTo | src/Application/Defrost/Defrost.c:122-125 | publishes and saves a state only when it changes, every counter reacting to the saved one |
| DefrostController.Defrost.DataModelChanged | src/Application/Defrost/Defrost.c:2215-2458 | turns a change of the data into its signal, or none, and settles |
| DefrostController.Defrost.EvaporatorTemperatureChanges | src/Application/Defrost/Defrost.c:2274-2312 | signals a valid evaporator temperature, and once more when the evaporator is a primary one after the first signal |
| DefrostController.Defrost.TestStateIsRequested | src/Application/Defrost/Defrost.c:2389-2413 | a state request goes to Idle or is refused, an exit request leaves the heater states for Dwell |
| DefrostController.Defrost.ConvertibleCompartmentStateChanges | src/Application/Defrost/Defrost.c:2443-2457 | divides the evaporators anew and signals the convertible temperature when it is now a primary one |
| DefrostController.Defrost.HeaterOnTimeChanges | src/Application/Defrost/Defrost.c:2334-2375 | a counter's minute ends the heater at its max-on-time, else declares it abnormal at the threshold of the role |
| DefrostController.Defrost.DefrostTimerExpired | src/Application/Defrost/Defrost.c:789-794 | the timer's expiry finds it stopped, and the state's own timer signal settles the object again |
| DefrostController.Defrost.PowerUpWith | src/Application/Defrost/Defrost.c:2559-2606 | start-up after a power cycle: prepares, starts in the recovered state and settles, from any saved state |
| DefrostController.Defrost.InitialState | src/Application/Defrost/Defrost.c:1248-1284 | the recovered state, which DefrostRecovery.PowerCycleRecovers spells out for every state and every reading of the thermistors |
| DefrostController.Defrost.SetErdIfCabinetFilteredTemperatureIsTooWarm | src/Application/Defrost/Defrost.c:2460-2515 | says whether the freezer or some primary evaporator is too warm at start-up |
| HeaterOnTimeCounting.HeaterOnTimeCounter.DataModelChanged | src/Application/Defrost/DefrostHeaterOnTimeCounter.c:52-91 | the counter's reaction to its heater and the saved state is the one the defrost machine is composed with |
| HeaterOnTimeCounting.HeaterOnTimeCounter.IncrementHeaterOnTimeCounter | src/Application/Defrost/DefrostHeaterOnTimeCounter.c:42-50 | a minute more, in eight bits, with the periodic timer running on |
| HeaterOnTimeCounting.HeaterOnTimeCounter.HeaterVoteWritten | src/Application/Defrost/DefrostHeaterOnTimeCounter.c:52-91 | a vote is reacted to only when it changes |
| HeaterOnTimeCounting.HeaterOnTimeCounter.DefrostStateWritten | src/Application/Defrost/DefrostHeaterOnTimeCounter.c:52-91 | a saved state is reacted to only when it changes |
| ReadyToDefrostRuns.TimeIsConserved | src/Application/Defrost/ReadyToDefrost.c:443-560 | in every reachable state short of readiness, recorded compressor time and every door's acceleration never exceed the true (weighted) time since the last reset, and lag it by less than a second for each addition, beyond the running period of at most a minute |
| ReadyToDefrostRuns.ProductFits32Bits | src/Application/Defrost/ReadyToDefrost.c:487-500 | whenever the elapsed ticks are added to an open door, ticks times factor fits 32 bits |
| ReadyToDefrostRuns.MillisecondsFit32Bits | src/Application/Defrost/ReadyToDefrost.c:351-419 | before readiness the recorded compressor time and the minimum in milliseconds, as the minimum state subtracts them, and the remaining time in milliseconds fit 32 bits |
| ReadyToDefrostRuns.RemainingTimeErrorBound | src/Application/Defrost/ReadyToDefrost.c:412-441 | when the remaining-time timer expires readiness is asserted; a total that was below the threshold has not passed it, and falls short by less than W milliseconds plus 999 for each thing that is on |
| ReadyToDefrostRuns.RecordedAtExpiry | src/Application/Defrost/ReadyToDefrost.c:746-751 | what that expiry records differs from elapsed time times weight by at most 999 milliseconds for each thing that is on |
| ReadyToDefrostRuns.CompressorTimeBeforeReadiness | src/Application/Defrost/ReadyToDefrost.c:632-648 | without the AHAM override, the remaining-time state and readiness are reached only with recorded compressor time above the minimum less one minute |
| ReadyToDefrostRuns.MinimumIsKeptExactlyWhenRunning | src/Application/Defrost/ReadyToDefrost.c:345-374 | the minimum itself is on record at that point if and only if the compressor runs as the timer expires or the minimum was on record before |
| ReadyToDefrostRuns.StoppedCompressorCutsMinimumShort | src/Application/Defrost/ReadyToDefrost.c:533-543 | the failing family: from any state with the minimum timer armed and all doors shut, stopping the compressor early and waiting ends the wait with less than the minimum on record |
| ReadyToDefrostRuns.MinimumIsCutShort | src/Application/Defrost/ReadyToDefrost.c:533-543 | the family is reached in three events from start-up, for every positive minimum |
| ReadyToDefrostRuns.PowerUpEstablishes | src/Application/Defrost/ReadyToDefrost.c:866-917 | start-up establishes the invariant from any restored records |
| ReadyToDefrostRuns.StepKeeps | src/Application/Defrost/ReadyToDefrost.c:803-864 | every event keeps the invariant: balances, the running timer, and the current remaining period |
| ReadyToDefrostController.ReadyToDefrost.Happen | src/Application/Defrost/ReadyToDefrost.c:803-864 | whatever happens, the object goes exactly where the model goes |
| ReadyToDefrostController.ReadyToDefrost.constructor | src/Application/Defrost/ReadyToDefrost.c:883-917 | start-up resets the records when the cabinet is too warm and enters the state the records and the waiting flag ask for |
| ReadyToDefrostController.ReadyToDefrost.SendSignal | src/Application/Defrost/ReadyToDefrost.c:561-801 | a signal the state defers goes to the waiting parent; the result is the model's response |
| ReadyToDefrostController.ReadyToDefrost.StateWaitingForMinimum | src/Application/Defrost/ReadyToDefrost.c:585-687 | what the minimum state does with each signal; it defers only the waiting signals |
| ReadyToDefrostController.ReadyToDefrost.StateWaitingForRemaining | src/Application/Defrost/ReadyToDefrost.c:689-769 | what the remaining-time state does with each signal; it defers only the waiting signals |
| ReadyToDefrostController.ReadyToDefrost.StateReadyAndDefrosting | src/Application/Defrost/ReadyToDefrost.c:771-801 | what the third state does with each signal |
| ReadyToDefrostController.ReadyToDefrost.StateWaitingToGetReady | src/Application/Defrost/ReadyToDefrost.c:561-583 | the parent consumes exactly the signal that waiting is over |
| ReadyToDefrostController.ReadyToDefrost.MinimumTimeIsOver | src/Application/Defrost/ReadyToDefrost.c:632-648 | records what is on, then asserts readiness or goes on to the remaining time |
| ReadyToDefrostController.ReadyToDefrost.AddElapsedTicksToOpenDoorsExcept | src/Application/Defrost/ReadyToDefrost.c:507-531 | adds the elapsed ticks times its factor to every open door but one, and to nothing else |
| ReadyToDefrostController.ReadyToDefrost.AddElapsedTicksForDoorThatOpened | src/Application/Defrost/ReadyToDefrost.c:520-531 | the elapsed ticks go to the doors that were open before |
| ReadyToDefrostController.ReadyToDefrost.AddElapsedTicksForDoorThatClosed | src/Application/Defrost/ReadyToDefrost.c:502-518 | the elapsed ticks go to the closed door and to those still open |
| ReadyToDefrostController.ReadyToDefrost.DoorAccelerationsInSeconds | src/Application/Defrost/ReadyToDefrost.c:219-234 | the sum of all doors' accelerations |
| ReadyToDefrostController.ReadyToDefrost.AtLeastOneDoorIsOpen | src/Application/Defrost/ReadyToDefrost.c:301-311 | says whether some door is open |
| ReadyToDefrostController.ReadyToDefrost.SumOfOpenDoorFactors | src/Application/Defrost/ReadyToDefrost.c:324-337 | the sum of the open doors' factors |
| ReadyToDefrostController.ReadyToDefrost.ResetRecords | src/Application/Defrost/ReadyToDefrost.c:88-116 | all records back to zero, door by door |
| ReadyToDefrostController.ReadyToDefrost.RemainingTimeUntilReady | src/Application/Defrost/ReadyToDefrost.c:421-441 | the remaining time divided by the weight of what is on; the three cases of the original are one |
| ReadyToDefrostController.ReadyToDefrost.StartMinimumTimerOrPeriodicUpdate | src/Application/Defrost/ReadyToDefrost.c:533-543 | arms the minimum timer or the update period, and leaves the timer alone when nothing is on |
| ReadyToDefrostController.ReadyToDefrost.StartRemainingTimerOrPeriodicUpdate | src/Application/Defrost/ReadyToDefrost.c:471-485 | arms the remaining time or the update period, and stops the timer when nothing is on; ReadinessComes.TimerIsArmedForWhatRemains and ReadinessComesExactly say that readiness follows |
| ReadyToDefrostController.ReadyToDefrost.TimeBetweenDefrostsForPresentConditions | src/Application/Defrost/ReadyToDefrost.c:135-187 | the minimum time under each of the six abnormal conditions, the convertible one only where it is fitted, and the maximum under none |
| ReadyToDefrostRuns.AbnormalWaitEndsWithMinimum | src/Application/Defrost/ReadyToDefrost.c:632-648 | what that decides: in any run without the AHAM override, a wait that begins under an abnormal condition never gets to the remaining-time state, and one that begins under none is never over with the minimum alone, unless the configured times agree |
| ReadinessComes.TimerIsArmedForWhatRemains | src/Application/Defrost/ReadyToDefrost.c:471-485 | in every reachable state that waits for the remaining time with anything on, the timer is armed, its period times the weight never past what remains, and short of it by less than one millisecond times the weight unless it is the minute of an update |
| ReadinessComes.ReadinessComesExactly | src/Application/Defrost/ReadyToDefrost.c:471-485 | while the inputs then stay as they are, readiness is asserted exactly when what remained, divided by the weight, has passed, with the expiry then due and after a bounded number of expiries |
| ReadinessComes.DefrostIsDueExactly | src/Application/Defrost/ReadyToDefrost.c:585-769 | a whole wait with the compressor running and all doors shut is over exactly after the minimum time, or the time for the present conditions if longer; with the minimum alone where that time is the AHAM one, and after the AHAM time under the override |
| ReadinessComes.AhamDefrostIsDueExactly | src/Application/Defrost/ReadyToDefrost.c:666-677 | asking for the AHAM time in any state of waiting starts the wait anew: readiness is then asserted exactly when that time has passed |
| ReadinessRecords.AhamRestartsTheWait | src/Application/Defrost/ReadyToDefrost.c:666-677 | in any state it resets all records, and from a wait it leads to the minimum state with the AHAM time published and the timer started if anything is on |
| ReadinessRecords.ShownTimeIsRecorded | src/Application/Defrost/ReadyToDefrost.c:247-263 | in every reachable state the time shown is the compressor's recorded time in the minimum state and the total with the doors' acceleration in the remaining-time state |
| ReadinessRecords.RemainingIsDueAtOnceExactly | src/Application/Defrost/ReadyToDefrost.c:689-712 | entered with nothing on, the remaining-time state arms readiness if and only if the compressor has its minimum and the total the threshold of the present conditions, and arms nothing otherwise |
| ReadinessRecords.PowerUpResumesExactly | src/Application/Defrost/ReadyToDefrost.c:866-917 | a start resumes with the restored records, or none when too warm, in the minimum state exactly while the compressor's time is short of it |
| AugerMotorModel.RelaysAreInterlocked | src/Application/Auger/AugerMotorController.c:121-280 | in every run from both relays off, the direction relay moves only without power and a whole delay after power last went off, and power comes on only a whole delay after the direction last moved, whatever votes arrive |
| AugerMotorModel.MotorRunsOnlyToDispenseOrTurnBack | src/Application/Auger/AugerMotorController.c:171-260 | the motor is powered only to dispense the voted ice in its own direction or to turn back against the ice last dispensed, and the log ends with the relays as they are |
| AugerMotorModel.RestsOnlyWhenVotedOff | src/Application/Auger/AugerMotorController.c:150-169 | at rest the vote is off, both relays are off and no timer runs |
| AugerMotorModel.WindingDownStep | src/Application/Auger/AugerMotorController.c:218-280 | one step of winding down: votes change nothing but the vote, no time is lost or gained, and it ends only when its time is up, in the phase then voted for |
| AugerMotorModel.DispensingEndsInWindingDown | src/Application/Auger/AugerMotorController.c:171-216 | dispensing ends only by a vote, and then winding down begins with four delays and the relief time left |
| AugerMotorModel.WindingDownTakesItsTime | src/Application/Auger/AugerMotorController.c:218-280 | over any run spent winding down, the time passed and the time left add up to what was left at its start |
| AugerMotorModel.PowerWrite | src/Application/Auger/AugerMotorController.c:45-51 | a write to the power relay keeps the interlock when it turns it off, or comes a delay after the last direction change |
| AugerMotorModel.DirectionWrite | src/Application/Auger/AugerMotorController.c:53-59 | a write to the direction relay keeps the interlock without power and a delay after power went off |
| AugerMotorDispensing.DelaysAreServedOnce | src/Application/Auger/AugerMotorController.c:121-280 | in every run a delay runs exactly in the phases that wait, and what is left of it and the time since the last relay write add up to the whole delay: none is cut short and none is begun again |
| AugerMotorDispensing.VotedIceIsDispensed | src/Application/Auger/AugerMotorController.c:171-216 | from anything a run reaches, ice that stays voted for longer than winding down and one delay is being dispensed in its own direction |
| AugerMotorDispensing.KeptVoteIsServed | src/Application/Auger/AugerMotorController.c:171-280 | over any run with the vote kept, the motor is powered to dispense it once the time to it, winding down and delay, has passed |
| AugerMotorDispensing.DispensingFromRest | src/Application/Auger/AugerMotorController.c:171-216 | from rest cubed ice is dispensed at once and crushed ice after exactly one delay |
| AugerMotorControl.AugerMotorController.OnAugerMotorIceTypeVoteChange | src/Application/Auger/AugerMotorController.c:282-301 | the object follows the machine on a vote in every state |
| AugerMotorControl.AugerMotorController.RelayOperationDelayTimerExpired | src/Application/Auger/AugerMotorController.c:121-280 | the object follows the machine on the relay delay in every state; AugerMotorDispensing.DelaysAreServedOnce and VotedIceIsDispensed say that the motor then runs |
| AugerMotorControl.AugerMotorController.PressureReliefTimerExpired | src/Application/Auger/AugerMotorController.c:256-258 | the object follows the machine on the relief time in every state |
| AugerMotorControl.AugerMotorController.Transition | src/Application/Auger/AugerMotorController.c:121-280 | entering a state writes the relays and starts the shared timer as the machine does |
| AugerMotorControl.AugerMotorController.ReverseAugerDirectionRelay | src/Application/Auger/AugerMotorController.c:108-118 | the direction relay is set against the ice last dispensed, and not touched when there is none |
| AugerMotorControl.AugerMotorController.constructor | src/Application/Auger/AugerMotorController.c:303-324 | start-up with both relays off |
| DamperModel.RestIsFaithful | src/Application/Damper/DamperRequestManager.c:104-141 | from start-up, if every vote delivered in Idle changes the position, at rest the believed position is the requested one and the one the last completed move left |
| DamperModel.FaithfulExactly | src/Application/Damper/DamperRequestManager.c:126-128 | a step keeps the damper faithful if and only if it is not a vote repeated in Idle |
| DamperModel.CompletionIsFaithfulExactly | src/Application/Damper/DamperRequestManager.c:252-255 | after any completed move the believed position is where it left the damper if and only if it was not a move in Moving toward the position already believed; and when that goes wrong at rest, exactly |
| DamperModel.RepeatedVoteThenReversalStrands | src/Application/Damper/DamperRequestManager.c:126-128 | the failing family: a vote repeated in Idle and reversed before its move completes leaves the damper resting where nobody asked for it, and believed elsewhere |
| DamperModel.RepeatedVoteAloneIsHarmless | src/Application/Damper/DamperRequestManager.c:126-128 | without a reversal, two completed moves restore the whole state |
| DamperModel.EachMoveCounts | src/Application/Damper/DamperRequestManager.c:104-268 | a measure of at most five, zero exactly at rest, falls by exactly one with each completed move |
| DamperModel.ComesToRest | src/Application/Damper/DamperRequestManager.c:104-268 | with no new requests, after exactly that many completed moves the damper is at rest, believed to be where requested, with all three latches clear |
| DamperModel.FullCycleRequestIsHonoured | src/Application/Damper/DamperRequestManager.c:134-136 | a full-cycle request in any state but FullCycle is followed by a FullCycle visit with the next completed move at the latest, whatever happens meanwhile |
| DamperModel.PendingCycleIsMade | src/Application/Damper/DamperRequestManager.c:161-164 | a latched full cycle is made with the next completed move of any run |
| DamperModel.HomeRequestIsHonoured | src/Application/Damper/DamperRequestManager.c:130-132 | a home request received in any state is followed by a whole homing move within four completed moves, whatever happens meanwhile |
| DamperModel.PendingHomingCompletes | src/Application/Damper/DamperRequestManager.c:143-178 | any pending homing is complete within four completed moves of any run |
| DamperMoves.MovesTakeTheirSteps | src/Application/Damper/DamperRequestManager.c:84-124 | every move that is started opens by the opening count in force or closes by the closing one, but for homing and the opening half of a full cycle, which go the whole way; in Moving it goes toward the request, and homing alone resets the substep |
| DamperMoves.CountsFollowTheRole | src/Application/Damper/DamperRequestManager.c:270-280 | in every run the counts in force are those of the role last published |
| DamperMoves.RequestsAreAcknowledgedExactly | src/Application/Damper/DamperRequestManager.c:143-178 | both requests are acknowledged by the end of a homing move and by nothing else |
| DamperMoves.FullCycleTravels | src/Application/Damper/DamperRequestManager.c:180-226 | a full cycle from rest closes an open damper, opens it all the way and homes it |
| DamperMoves.NewRoleHomesAnOpenDamper | src/Application/Damper/DamperRequestManager.c:307-317 | a new role of the convertible damper homes it again if it is believed open, and otherwise changes only the counts |
| DamperControl.DamperRequestManager.OnDataModelChange | src/Application/Damper/DamperRequestManager.c:282-328 | the object goes exactly where the machine goes on every change |
| DamperControl.DamperRequestManager.StepRequestCompleted | src/Application/Damper/DamperRequestManager.c:143-268 | the completion of a move in every state |
| DamperControl.DamperRequestManager.GoToIdle | src/Application/Damper/DamperRequestManager.c:104-124 | entering Idle serves the latches in order, then the position |
| DamperControl.DamperRequestManager.GoToFullCycle | src/Application/Damper/DamperRequestManager.c:180-203 | a full cycle starts by closing an open damper |
| DamperControl.DamperRequestManager.GoToMoving | src/Application/Damper/DamperRequestManager.c:228-249 | a move to the requested position with the current step counts |
| DamperControl.DamperRequestManager.HomeIsRequested | src/Application/Damper/DamperRequestManager.c:257-259 | a home request starts homing in Idle, is latched in Moving, and needs nothing in the other states |
| DamperControl.DamperRequestManager.constructor | src/Application/Damper/DamperRequestManager.c:330-364 | start-up homes the damper and believes the requested position meanwhile |
| DtcRingModel.DeliversTheStream | src/Hardware/BufferedUart_Channel1.c:106-132 | for every interleaving of arriving bytes with the accesses of Run in which fewer bytes than the ring holds are unread, the chunks delivered are the byte stream itself up to the last count |
| DtcRingModel.CountIsModular | src/Hardware/BufferedUart_Channel1.c:90-104 | the count is the number of unread bytes modulo the ring's size, and right if and only if fewer than that are unread |
| DtcRingModel.FullRingLosesALap | src/Hardware/BufferedUart_Channel1.c:90-104 | a Run that counts a full ring leaves at least one whole lap behind |
| DtcRingModel.RunAmidIsARun | src/Hardware/BufferedUart_Channel1.c:106-132 | a call of Run with bytes arriving between its iterations is a run of the machine |
| DtcRingModel.ReceiveKeeps | src/Hardware/BufferedUart_Channel1.c:232-251 | a byte written by the hardware overwrites the oldest of the last fifty and none else |
| BufferedUart.BufferedUartChannel1.Run | src/Hardware/BufferedUart_Channel1.c:106-132 | the copying loop, with a burst of bytes before every iteration, publishes exactly the machine's chunk |
| BufferedUart.BufferedUartChannel1.DtcRingBufferGetCount | src/Hardware/BufferedUart_Channel1.c:90-104 | the number of unread bytes modulo fifty, right exactly while fewer than fifty are unread |
| BufferedUart.BufferedUartChannel1.DtcReceives | src/Hardware/BufferedUart_Channel1.c:232-251 | one byte stored by the hardware in repeat mode |
| InputCaptureModel.CalculateFeedbackCounts | src/Bsp/InputCapture_FeedbackCountCalculation.c:16-27 | fits 32 bits and agrees with the difference of the two captured counts modulo their range |
| InputCaptureModel.FeedbackCountsAreExactly | src/Bsp/InputCapture_FeedbackCountCalculation.c:16-27 | for any two ticks, the result is their true distance if and only if the overflows given are the true wraps, or one wrap went uncounted and shows in the counts |
| InputCaptureModel.FedValuesAreIntervals | src/Bsp/DataSource_InputCapture.c:109-160 | under any interleaving of interrupts with the single accesses of the poll, every value fed to the filter is the interval between two consecutive captures modulo the counter's range, exact when shorter, from strictly later captures each time and never from the first alone |
| InputCaptureModel.SeedsExactlyWhenOff | src/Bsp/DataSource_InputCapture.c:121-132 | an empty poll seeds the filter with the off value if and only if thirty or more empty polls came before it |
| InputCaptureModel.PollIsItsAccesses | src/Bsp/DataSource_InputCapture.c:109-135 | an uninterrupted poll of a channel is the sequence of its single accesses |
| InputCaptureModel.CaptureKeeps | src/Bsp/DataSource_InputCapture.c:137-160 | a capture interrupt between any two accesses keeps mailbox and filter in order |
| InputCaptureModel.MailboxIsFullExactly | src/Bsp/DataSource_InputCapture.c:137-160 | after any event the mailbox is full if and only if it was full and no feed ended, or the event was a capture and not the channel's first |
| InputCaptureModel.WaitingValueIsFed | src/Bsp/DataSource_InputCapture.c:109-135 | whatever captures come between, the value in a full mailbox is the next entry of the filter after three accesses of the poll |
| InputCaptureModel.CapturedIntervalIsFed | src/Bsp/DataSource_InputCapture.c:109-160 | after any run, two captures and a poll that further captures interrupt anywhere feed the filter, with the oldest interval no earlier poll has taken |
| InputCaptureModel.TwoCapturesAndAPollFeed | src/Bsp/DataSource_InputCapture.c:109-160 | in particular two captures and an uninterrupted poll feed it exactly once |
| InputCapture.DataSourceInputCapture.InputCaptureCompareMatch | src/Bsp/DataSource_InputCapture.c:137-160 | the interrupt changes its own channel, as the machine does, and no other; its mailbox is full afterwards if and only if it was or the channel had captured before; every channel goes on being where a possible run of its own has brought it |
| InputCapture.DataSourceInputCapture.PollInputCapture | src/Bsp/DataSource_InputCapture.c:109-135 | with any burst of interrupts on any channels before each single access, every channel is polled exactly once: a mailbox that was full on entry is fed and nothing else is, and every channel ends where a possible run of its own brings it; without interrupts the result is that of the uninterrupted poll |
| InputCapture.DataSourceInputCapture.FedValueIsAnInterval | src/Bsp/DataSource_InputCapture.c:109-160 | so at any time every value fed to the filter of any channel is the interval between two consecutive captures of that channel, modulo the counter's range |
| InputCapture.DataSourceInputCapture.constructor | src/Bsp/DataSource_InputCapture.c:396-433 | every channel starts empty with its filter seeded |
| TemperatureMonitorModel.EveryFaultWriteIsJustified | src/Application/Cooling/CabinetTemperatureExceededMonitor.c:105-275 | each time the fault was raised, power had been on, all doors closed and defrost Idle for their minimum times without a break and a valid reading exceeded the upper limit; each time it was cleared a valid reading was below the lower limit; and the fault is the last value written |
| TemperatureMonitorModel.FaultIsSetWhenItShouldBe | src/Application/Cooling/CabinetTemperatureExceededMonitor.c:169-193 | nothing is missed: when those conditions hold and no timer is due, the fault is set |
| TemperatureMonitorModel.ClearedOnlyBelowLowerLimit | src/Application/Cooling/CabinetTemperatureExceededMonitor.c:313-326 | the fault is only ever cleared by new readings that are valid and below the lower limit |
| TemperatureMonitorModel.StepKeeps | src/Application/Cooling/CabinetTemperatureExceededMonitor.c:277-327 | every event keeps the flags equal to what the true times say |
| TemperatureMonitorModel.FaultIsExactly | src/Application/Cooling/CabinetTemperatureExceededMonitor.c:105-275 | after any event in any run the fault is set if and only if the conditions hold by true times, but for a timer that is due, or it was set and the event was not a valid reading below the lower limit that is listened to |
| TemperatureMonitorModel.ListensExactlyAfterPowerUpTime | src/Application/Cooling/CabinetTemperatureExceededMonitor.c:392-411 | in every run changes are listened to exactly from the expiry that ends the power-up time |
| TemperatureMonitoring.CabinetTemperatureExceededMonitor.ReadingsChange | src/Application/Cooling/CabinetTemperatureExceededMonitor.c:313-326 | new readings raise or clear the fault as the machine does |
| TemperatureMonitoring.CabinetTemperatureExceededMonitor.DoorChanges | src/Application/Cooling/CabinetTemperatureExceededMonitor.c:281-296 | a door's change drives the door machine by whether all doors are closed |
| TemperatureMonitoring.CabinetTemperatureExceededMonitor.DefrostStateChanges | src/Application/Cooling/CabinetTemperatureExceededMonitor.c:298-312 | the defrost state drives the defrost machine |
| TemperatureMonitoring.CabinetTemperatureExceededMonitor.DoorTimerExpired | src/Application/Cooling/CabinetTemperatureExceededMonitor.c:91-96 | the shared timer's expiry starts both machines the first time, and completes the doors' minimum time later |
| TemperatureMonitoring.CabinetTemperatureExceededMonitor.DefrostTimerExpired | src/Application/Cooling/CabinetTemperatureExceededMonitor.c:98-103 | the defrost machine's minimum time is complete |
| TemperatureMonitoring.CabinetTemperatureExceededMonitor.MinimumTimeSincePowerOnComplete | src/Application/Cooling/CabinetTemperatureExceededMonitor.c:392-411 | both machines start in the state the inputs are in |
| TemperatureMonitoring.CabinetTemperatureExceededMonitor.MinimumTimeDoorsMustBeClosedComplete | src/Application/Cooling/CabinetTemperatureExceededMonitor.c:132-193 | the flag is set and the fault raised when the other conditions hold |
| TemperatureMonitoring.CabinetTemperatureExceededMonitor.SignalADoorIsOpened | src/Application/Cooling/CabinetTemperatureExceededMonitor.c:154-192 | an opened door stops the timer or clears the flag |
| TemperatureMonitoring.CabinetTemperatureExceededMonitor.AllDoorsAreClosed | src/Application/Cooling/CabinetTemperatureExceededMonitor.c:340-355 | says whether no door is open |
| TemperatureMonitoring.CabinetTemperatureExceededMonitor.ConditionsForExceededTemperatureAreMet | src/Application/Cooling/CabinetTemperatureExceededMonitor.c:105-111 | says whether the fault is to be raised |
| TemperatureMonitoring.CabinetTemperatureExceededMonitor.constructor | src/Application/Cooling/CabinetTemperatureExceededMonitor.c:413-433 | start-up waits for the power-up time with both flags clear |

## Left out

- Vote resolution, stack allocation, debouncing and the filters' arithmetic: these libraries are not part of this model; a winning vote is an assumption and a filter is the list of what it was given.
- Register set-up, pins, vector tables, the UART's transmit side and error interrupt, and the flow meter's pulse count: input and output without a claim of their own.
- Channels 5, 6 and 9 of the UART: they repeat channel 1.
- 32-bit wrap of the second counters: after readiness is asserted and not acted on, or with door factors so large that a sum passes 32 bits, the original's accumulators could wrap; they are unbounded here. The products computed at run time are proved to fit by ProductFits32Bits and MillisecondsFit32Bits.
- Door factors of zero: the original would divide by zero with only such doors open; `Sound` assumes factors to be positive. The same predicate of the damper assumes positive step counts, since a move of zero steps would complete at once.
- A heater max-on-time of zero and the counters' own resets to zero: a reset publishes zero minutes, but only in states that do not listen to it.
- DefrostProperties.HeatersNeedStillAir: the runs are those without a test request that finds a primary heater on in a SecondaryOnly defrost, because with one the claim is false, as InterlockedExactlyByTameRuns says; the same holds of HeaterTimeIsBounded, CounterNeverWraps and the abnormal events. What every possible run keeps is in DefrostTiming and HeatInEveryRun.
- DefrostProperties.HeaterTimeIsBounded: the bound on the whole visit is claimed when the type selects a heater, because without one it is false, as EmptyVisits says.
- WholeDefrost.WholeDefrostIsBounded: history starts empty, so that the first defrost is whole; types that turn on no heater are excluded, because HeaterOn then has no bound.
- AbnormalDefrosts.AbnormalTwiceExactly: max-on-times are bounded by one limit for all heaters, as everywhere in the model, and the converse has them all at the limit.
- DefrostSchedule.Schedule: state test requests are excluded, because one taken in PostDwell makes the next defrost repeat its type, as SkippedDecisions says; overrides and changes of N are excluded by its meaning.
- ReadyToDefrostRuns.CompressorTimeBeforeReadiness: runs with the AHAM override are excluded, because the override replaces the minimum.
- ReadyToDefrostRuns.TimeIsConserved: nothing is claimed between readiness and the reset that follows it, because the timer is not restarted there.
- InputCapture.DataSourceInputCapture.PollInputCapture: the interrupts come before the single reads and writes of one channel record, not within one; a 32-bit value is taken to be written and read at once.
- Events of the temperature monitor's three readings are one event that may change all of them: more runs than the original has.
- The compressor, fan and damper controllers that only map one input to one output would add easy members.

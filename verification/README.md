# Verification of saced

`saced` is an Android daemon that starts processes for its clients, tracks them in several
overlapping indexes, reaps them and reports back over a framed wire protocol. This project
models five parts of it in Dafny and proves what they keep:

- **Normal commands** (`ProcessList`, `NormalSpec`, `NormalAnswers`, `NormalExcutor`, `ClientTable`,
  `Dispatcher`, `Pipeline`, `PathAnswers`).
  A command lives in a vector, a label map, a per-client label list and the hand-linked `pidlist`,
  which re-implements the popen() and pclose() entries of the System Interfaces volume of
  IEEE Std 1003.1-2017. `ProcessList` has real nodes. `NormalSpec` is the executor as a state
  machine on values, `NormalExcutor` the class whose methods take exactly its steps, and
  `Pipeline` the whole path from socket reader to executor as interleaved actions.
- **Services** (`ServiceSpec`, `ServiceAnswers`, `ServiceExcutor`, `ServiceTrace`,
  `ServiceAsWritten`). A lifecycle over three indexes, with a sweep that reaps, classifies, notifies and removes. Records live at
  addresses of an explicit heap, because the executor updates them in place and frees them.
- **Two concurrent hand-offs**: the semaphore queue of an executor (`MessageQueue`) and the
  rendezvous between command threads and the receive thread of a client (`Rendezvous`), both as
  interleavings of the steps that a mutex or a semaphore makes atomic.
- **The wire** (`Parcels`, `Codec`, `WireLayout`): Parcel bytes and cursor, the nested message codecs with their
  back-patched length, and the readers' framing tests.
- **Events** (`Triggers`, `IniFile`, `IniLines`, `IniRoundTrip`, `LastLine`, `EventTable`,
  `EventUser`): edge-triggered conditions under a short-circuit poll, the event file's printer and parser, and
  whom an event runs as before and after it went through the file.

`Labels` has the sequence and label arithmetic, `Sequences` the vector operations.

`dafny verify dfyconfig.toml` checks the whole project.

## How the models are built

A component that updates fields is a class; its methods' contracts equate the new abstract state
with a function of the old one, and the lemmas are about that function. Protocols are step
functions over an action, with histories kept as fields that no step reads. Beside each
step function stand its answers: what every operation leaves, sends and tells, written out without
the functions that compute it (`ServiceAnswers`, `NormalAnswers`, `PathAnswers`, `WireLayout`,
`IniLines`). `hide` statements in proof bodies only narrow what the solver sees.

Assumptions about the environment, stated where they are used:

- `pipe2` gives an fd that is not open, and fork a pid that is not tracked.
- A child's `waitpid` answers come as a sequence (`ProcessList`) or as a function of the pid that
  holds for one sweep (`ServiceSpec`).
- The Looper and the executor queue are FIFO in `Pipeline`; `MessageQueue` proves the latter.
- A new label is not that of a live command or service. A normal command's record is never freed,
  so its label never comes back either. A service's is freed and its label may come back;
  `ServiceTrace` counts the lives of a label.
- Results come to a client in the order they were sent, each as one read. Nothing is assumed of
  whom the server sends a result to or under which sequence: `Rendezvous` takes any result at any
  time, and where a theorem needs more, it is a hypothesis there (`Honest`, the result's sequence).
- Conversion between UTF-8 and UTF-16 is a bijection; strings are sequences of UTF-16 units.

## Where the code is not what it is for

In each place the code is modelled as it is written, with an intended form beside it where there
is one, and a lemma gives the exact condition under which the code does what it is for.

| code | what it does | exact condition |
|---|---|---|
| saced/SaceExcutor.cpp:482, 505 | START copies the command into 128 bytes (libsace/include/sace/SaceServiceInfo.h:28) without a look at its length | `ServiceAsWritten.LongCommandBreaks`: any START of a new name with 128 characters or more, in any state; `ServiceAsWritten.LongestCommand` is the limit; `ServiceAsWritten.StepAsWrittenExactly` |
| saced/SaceExcutor.cpp:591 | RESTART pushes a record that PAUSE never took out | `ServiceAsWritten.RunAsWrittenExactly`; `ServiceAsWritten.ResumedServiceDangles` and `ServiceAsWritten.ResumedRunBreaks` show the freed record that is read |
| saced/SaceExcutor.cpp:702-708 | the sweep erases saved positions in ascending order | `ServiceAsWritten.SweepAsWrittenExactly`: right if and only if at most one record is collected |
| saced/SaceExcutor.cpp:695-698 | a child that waitpid does not know is dropped without a response | `ServiceTrace.SweepConservesExactly`, `ServiceTrace.RunConserves`, `ServiceTrace.WholeLife`: responses are conserved if and only if it knows every child; `ServiceTrace.RunOwes`, `ServiceTrace.WholeLifeOwes` count what is lost otherwise |
| saced/SaceExcutor.cpp:707, saced/SaceEvent.cpp:375-403 | a service's label is made from an address that is freed and may be given out again with the same sequence | `ServiceTrace.RecycledLabelToldTwice`: responses are one per life of a label, not one per label; `ServiceTrace.ToldOnce`: one if the label was given once |
| saced/SaceExcutor.cpp:223-231 | the kill time is tested before the total time | `ProcessList.TotalTimeIsUnreachable`, `ProcessList.TwentyPollsExactly` |
| libsace/SaceSender.cpp:267-276 | a caller waits before it looks for its result | `Rendezvous.WakeUpsExactly`, `Rendezvous.EarlyResultTimesOut` |
| libsace/SaceObj.cpp:108, 144, 178, 209 | requests reuse the original sequence number | `Rendezvous.OwnAnswerExactly`: safe if and only if nothing is parked under it or on the socket and no earlier command with it is unanswered; `Rendezvous.LaterSendSpoils`, `Rendezvous.ReusedSequenceReturnsStale` |
| saced/SaceReader.cpp:53-60, 102-103 | a refusal carries the sequence 0 of a new result (libsace/include/sace/SaceTypes.h:310) | `Rendezvous.AnswerReachesExactly`: an answer reaches its caller if and only if it carries the command's sequence; `Rendezvous.RefusedCallTimesOut` |
| saced/SaceEvent.cpp:365-372 | results of restarted services go to the event's writers under the sequence of the command that added it | `Rendezvous.ForeignResultSpoils`: one such result under the sequence of a waiting call can be returned by it |
| saced/SaceReader.cpp:206-255 | one read of a stream socket (libsace/SaceManager.cpp:29) is taken as one command | `Codec.OneReadExactly`: a read yields all that was sent if and only if that is one whole command, at most 1024 bytes; `Codec.ReadDelivers` |
| libsace/SaceTypes.cpp:100-101 | the stored length of the extra bytes is not compared with their buffer | `Codec.CommandOverrunsExactly`: for every command on the wire, if and only if it exceeds 256 |
| saced/SaceReader.cpp:182-198 | a shadowed index decides whether the table is full | `ClientTable.AcceptAsWrittenExactly` |
| saced/SaceEvent.cpp:528 | `next_token` cuts one character too many | `LastLine.ServiceLineExactly`: a service line is intact if and only if it was delivered with getline's NUL; `LastLine.LastServiceIntactExactly`, `LastLine.LastLineExactly`: the last one of a file if and only if it ends in a newline; `LastLine.LastCharacterLost` is an input |
| saced/SaceEvent.cpp:798-824 | the service line, and user, group and seclabel together, are formatted in a 128-byte buffer | `EventTable.Table.WriteIniFile`: it overflows if and only if a chunk does not fit; `IniRoundTrip.ChunksFitFor`, `IniRoundTrip.SurvivesCycles`: each cycle of writing and reading uses up one byte |
| saced/SaceEvent.cpp:828-847 | on reading, groups gain a NUL group, property triggers keep their colon and equal sign, and an event without a boot trigger gains one | `IniRoundTrip.PrintsSameExactly`: all but the service line prints as before if and only if there are no groups and boot is the only trigger; `IniRoundTrip.ReadUndoesWrite` states what comes back of any table |
| libsace/SaceParams.cpp:95 | a supplementary group is kept when it does not decode | `EventUser.GidsInverted`, `EventUser.GidsExactly` |
| libsace/SaceParams.cpp:109-132 | a user, group or label left empty comes back from the event file as a NUL, which is not empty and a number | `EventUser.RereadUserExactly`, `EventUser.RereadLabelExactly`: the same if and only if it was not empty; it stays so from then on (`EventUser.RereadAgainStays`) |
| libsace/SaceParams.cpp:161-162 | more property keys than values off the wire are read past the values | `Triggers.ParseEventParams`: if and only if there are more keys |

Properties of service runs (`ServiceTrace`) are about the intended form.
`ServiceAsWritten.HarmlessRunsEndSame` carries them to every run of the code that starts no command
of 128 characters or more, resumes no paused service, and in which no sweep finds two dead.

## Model

| member | source | states |
|---|---|---|
| Labels.SequenceRecovered | libsace/include/sace/SaceTypes.h:31-32 | unpacking a label gives back the 32-bit sequence and address word, for all inputs |
| Labels.PackingInjective | libsace/include/sace/SaceTypes.h:32 | two labels are equal if and only if both low words agree |
| Labels.MacroInjective | libsace/include/sace/SaceTypes.h:31-32 | the same of the macros themselves on 64-bit words |
| Labels.SequenceHalves | libsace/include/sace/SaceTypes.h:46-67 | the low word of the thread id stands above the counter |
| Labels.SequencesCollideExactly | libsace/include/sace/SaceTypes.h:46-67 | two `init` calls collide if and only if their thread ids agree in the low word and they are a multiple of 65536 apart |
| Labels.NearSequencesDiffer | libsace/include/sace/SaceTypes.h:46-67 | calls fewer than 65536 apart never collide, whatever threads make them |
| Labels.SequenceCounter.Init | libsace/include/sace/SaceTypes.h:63-67 | with the 16-bit wrap-around, a new sequence differs from each of the last 65535 issued |
| Sequences.RemoveVectorItem | saced/SaceExcutor.cpp:34-42 | the scan erases the first match and nothing else |
| Sequences.RemoveFirstRemovesExactly | saced/SaceExcutor.cpp:34-42 | on a duplicate-free vector exactly the item goes |
| ProcessList.AwaitChild | saced/SaceExcutor.cpp:209-232 | the polling loop as written meets its closed form: polls, kills and ending |
| ProcessList.AwaitChildTotalFirst | saced/SaceExcutor.cpp:209-232 | the loop with the two tests exchanged meets its closed form |
| ProcessList.TotalTimeIsUnreachable | saced/SaceExcutor.cpp:223-231 | as written no wait ends by total time: it goes on while the child runs |
| ProcessList.TotalTimeCounterexample | saced/SaceExcutor.cpp:223-231 | thirty unanswered polls: still waiting as written, given up after twenty as intended |
| ProcessList.TwentyPollsExactly | saced/SaceExcutor.cpp:209-232 | over within twenty polls, and equal to the intended wait, if and only if one of twenty answers finds the child gone |
| ProcessList.NoEarlyKill | saced/SaceExcutor.cpp:223-226 | no SIGKILL before ten failed polls; one is sent if and only if ten fail |
| ProcessList.KilledChildBoundsTheWait | saced/SaceExcutor.cpp:209-232 | a child reapable within k polls of the first kill bounds the wait by 10 + k polls |
| ProcessList.FirstAnswerEnds | saced/SaceExcutor.cpp:209-238 | the first answer that is not "still running" ends the wait; closing returns its status, or -1 for an error; a SIGKILL followed each failed poll from the tenth, after one second, on |
| ProcessList.RemoveFdRemovesExactly | saced/SaceExcutor.cpp:191-207 | removing an fd takes its record, keeps the others in order and fds distinct |
| ProcessList.PidList.Popen | saced/SaceExcutor.cpp:122-179 | the new node is prepended to an acyclic list with distinct fds; a failed spawn changes nothing |
| ProcessList.PidList.Unlink | saced/SaceExcutor.cpp:190-207 | the node with the fd is unlinked at head, middle or tail, and only it |
| ProcessList.PidList.Pclose | saced/SaceExcutor.cpp:181-239 | unlinked exactly once, then awaited, then its fd closed; unknown fds change nothing |
| NormalSpec.StepKeepsAgreement | saced/SaceExcutor.cpp:754-888 | START, CLOSE and DESTROY keep vector, label map, client lists and `pidlist` in agreement |
| NormalSpec.RunKeepsAgreement | saced/SaceExcutor.cpp:754-888 | so does every run: every live label is once in its starter's list, no list is empty, `pidlist` is that of the live commands |
| NormalSpec.DestroyRemovesExactly | saced/SaceExcutor.cpp:768-792 | DESTROY removes exactly the live commands its client started from every index |
| NormalSpec.CloseRemovesExactly | saced/SaceExcutor.cpp:794-832 | CLOSE removes exactly its label, from the closer's list only; another's list keeps the dead label |
| NormalSpec.CloseUndoesStart | saced/SaceExcutor.cpp:794-888 | CLOSE by the starter restores all four indexes |
| NormalSpec.OneReplyEach | saced/SaceExcutor.cpp:768-888 | which single result each message is answered with |
| NormalAnswers.StartAnswered | saced/SaceExcutor.cpp:834-888 | a START that spawned: the command at the end of the vector with its kept pipe end, pid, command line, writer and label, in the label map, at the end of its client's list and no other, its child in front of the process list, and its client told label and fd |
| NormalAnswers.RefusedLeavesAll | saced/SaceExcutor.cpp:754-888 | a failed START and a CLOSE of a label that is not live answer failure and change nothing; an unknown message and a DESTROY without commands do nothing |
| NormalAnswers.CloseAnswered | saced/SaceExcutor.cpp:794-832 | a CLOSE of a live label takes exactly its command out of vector, map and process list and its label out of the closer's list, everything else in its order, and answers OK |
| NormalAnswers.DestroyAnswered | saced/SaceExcutor.cpp:768-792 | after a DESTROY the commands left are the others', in order, in every index, its client's list is gone and nobody is told |
| NormalExcutor.Excutor.StartNormalCmd | saced/SaceExcutor.cpp:834-888 | the method takes the START step and ends no child |
| NormalExcutor.Excutor.CloseNormalCmd | saced/SaceExcutor.cpp:794-832 | the method takes the CLOSE step, and unlinks, awaits and closes the command's child, once |
| NormalExcutor.Excutor.DestroyNormalCmd | saced/SaceExcutor.cpp:768-792 | the loop over a copy of the labels takes the DESTROY step, and unlinks, awaits and closes each live child of its client, once, in order |
| NormalExcutor.Excutor.ExcuteNormal | saced/SaceExcutor.cpp:754-766 | every message takes its step on the class's real fields and list, and agreement is kept |
| ClientTable.FirstFree | saced/SaceReader.cpp:183-185 | the first free slot, or the size of a full table |
| ClientTable.Table.AcceptAsWritten | saced/SaceReader.cpp:172-202 | the loop fills the first free slot; closing depends on an index that was never set |
| ClientTable.Table.Accept | saced/SaceReader.cpp:172-202 | as intended: a free slot takes the client, or the table is unchanged and the fd closed |
| ClientTable.AcceptAsWrittenExactly | saced/SaceReader.cpp:182-198 | the code is right if and only if the unset index happens to tell a full table |
| Pipeline.NextKeepsInv | saced/SaceReader.cpp:91-122 | every action keeps reader order, FIFO order and the agreement of the executor |
| Pipeline.NoOrphansInAnyRun | saced/SaceExcutor.cpp:768-792 | in every interleaving, a closed connection's DESTROY is under way with nothing of it behind, or nothing it started is alive |
| Pipeline.DestroyLeavesNone | saced/SaceExcutor.cpp:768-792 | once a DESTROY of (uid, pid) is executed, no index holds a command that identity started |
| Pipeline.NoneUntilNextStart | saced/SaceCommandDispatcher.cpp:84-95 | and none appears until a later START of that identity is executed |
| PathAnswers.AcceptAnswered | saced/SaceReader.cpp:172-202 | a new connection takes the first free slot under the next number; a full table takes none |
| PathAnswers.ReceiveAnswered | saced/SaceReader.cpp:91-105 | a command of root or system is posted for the executor of its type with its client, behind all posted before; any other is not posted |
| PathAnswers.HangupAnswered | saced/SaceReader.cpp:107-122 | a closed connection frees its slot and posts a DESTROY of its client for the normal executor |
| PathAnswers.ExecuteAnswered | saced/SaceExcutor.cpp:754-766 | the executor takes the next message's request, on behalf of its client |
| PathAnswers.DispatchesAll | saced/SaceCommandDispatcher.cpp:84-95 | everything posted is handed on: what is for the normal executor is queued in order, and that only |
| PathAnswers.CommandIsExecuted | saced/SaceReader.cpp:91-105 | from any state: a normal command of a permitted client, once what was before it is dispatched and executed, is next, and the executor then takes its client's request |
| Dispatcher.CommandDispatcher.HandleMessage | saced/SaceCommandDispatcher.cpp:84-95 | the loop hands the message to exactly the executors of its type, and takes the path's dispatch step for the normal one |
| ServiceSpec.ScanExactly | saced/SaceExcutor.cpp:645-700 | the first loop of the sweep collects, classifies and answers by the states it began with |
| ServiceSpec.SweepExactly | saced/SaceExcutor.cpp:640-711 | any number of dead: exactly the collected leave all indexes, survivors keep order and fields, one response per writer of each reaped |
| ServiceSpec.SurvivorsExactly | saced/SaceExcutor.cpp:702-708 | what survives a sweep, without duplicates |
| ServiceSpec.StepKeepsAgreement | saced/SaceExcutor.cpp:462-711 | every event keeps the vector duplicate-free and both maps inverse to the records' labels and names, with live states only |
| ServiceSpec.RunKeepsAgreement | saced/SaceExcutor.cpp:462-711 | so does every run of START, STOP, PAUSE, RESTART, INFO, time-outs and shutdown, labels of freed services coming back included |
| ServiceAnswers.StartAnswered | saced/SaceExcutor.cpp:483-540 | START, as written and as intended: a name in use, a command too long, a failed fork, or the service in all three indexes with its own fields, its label from sequence and address, and its client told the label |
| ServiceAnswers.StopAnswered | saced/SaceExcutor.cpp:541-560 | STOP sends SIGTERM to a running or paused service, sets FINISHING_USER and answers OK; any other live service is left alone with OK; an unknown label is a failure and changes nothing |
| ServiceAnswers.PauseAnswered | saced/SaceExcutor.cpp:561-577 | PAUSE of a running service: SIGSTOP, PAUSED, OK; else a failure that changes nothing |
| ServiceAnswers.RestartAnswered | saced/SaceExcutor.cpp:578-596 | RESTART of a paused service: SIGCONT, RUNNING, OK, and as written a second entry; else a failure that changes nothing |
| ServiceAnswers.InfoAnswered | saced/SaceExcutor.cpp:606-638 | if and only if it asks by name for a service there with these flags, INFO gives its label and state and registers the writer once; else a failure that changes nothing |
| ServiceAnswers.OtherAnswered | saced/SaceExcutor.cpp:462-482 | any other type is a failure that changes nothing |
| ServiceAnswers.UninitAnswered | saced/SaceExcutor.cpp:442-450 | SIGINT to every service in order, nothing else before the sweep |
| ServiceAnswers.EndIsTold | saced/SaceExcutor.cpp:654-694 | for every service at every event, by waitpid's answer: each of its writers, once and in order, is told the exit code, USER after a stop and SIGTERM, the signal, or the unknown status, and nothing for any other answer |
| ServiceAnswers.EndsInOrder | saced/SaceExcutor.cpp:645-700 | a sweep's whole output, record by record in the order of the vector |
| ServiceAnswers.EndLeaves | saced/SaceExcutor.cpp:645-708 | a service stays in vector, maps and heap, unchanged, if and only if waitpid finds it running or fails |
| ServiceAnswers.SweepOnlyEnds | saced/SaceExcutor.cpp:640-711 | a sweep puts out responses only, after the event's own output, and brings no record |
| ServiceAnswers.PolledExactly | saced/SaceExcutor.cpp:650-700 | which states are polled and which answers collect a record |
| ServiceAnswers.ScanMarks | saced/SaceExcutor.cpp:663-690 | the state each answer leaves in a record between the two loops |
| ServiceAnswers.DestructAnswered | saced/SaceExcutor.cpp:417-440 | SIGKILL and one SIGNAL response to each writer, for every service in order, and nothing left |
| ServiceAnswers.StopIsAnsweredUser | saced/SaceExcutor.cpp:541-711 | over runs: after an accepted STOP, a service found dead of SIGTERM by that sweep or a later one tells USER to every writer it has by then, once and nothing else |
| ServiceExcutor.AddWriterTo | saced/SaceExcutor.cpp:390-395 | the loop adds a writer unless an equal one is there |
| ServiceExcutor.Excutor.StartService | saced/SaceExcutor.cpp:487-540 | the START branch takes its step: the name exists, the command overruns its buffer, fork failed, or the service is registered |
| ServiceExcutor.Excutor.ControlService | saced/SaceExcutor.cpp:541-596 | the STOP, PAUSE and RESTART branches take their steps, in both forms |
| ServiceExcutor.Excutor.HandleServiceInfo | saced/SaceExcutor.cpp:606-638 | INFO takes its step and registers the writer |
| ServiceExcutor.Excutor.ExcuteNormal | saced/SaceExcutor.cpp:462-604 | a message takes its step, sweep included |
| ServiceExcutor.Excutor.ScanServices | saced/SaceExcutor.cpp:645-700 | the first loop, updating records in place, computes the scan |
| ServiceExcutor.Excutor.MonitorServiceStatus | saced/SaceExcutor.cpp:640-711 | both loops of the sweep, as written and as intended |
| ServiceExcutor.Excutor.OnUninit | saced/SaceExcutor.cpp:442-452 | SIGINT to every service, then a sweep |
| ServiceExcutor.Excutor.Destroy | saced/SaceExcutor.cpp:417-440 | SIGKILL, a response per writer and a free for every remaining record |
| ServiceAsWritten.SweepAsWrittenExactly | saced/SaceExcutor.cpp:702-708 | the sweep as written is right if and only if it collects at most one record |
| ServiceAsWritten.RestartDiffers | saced/SaceExcutor.cpp:581-592 | RESTART of a paused service always leaves another state than intended, even after its sweep |
| ServiceAsWritten.ResumedServiceDangles | saced/SaceExcutor.cpp:591 | among any services, a resumed one that is found dead leaves an entry that the next sweep reads after its record is freed |
| ServiceAsWritten.ResumeThenDeathBreaks | saced/SaceExcutor.cpp:581-592 | so it goes from every state with a paused service: RESTART, its death, one more time-out |
| ServiceAsWritten.ResumedRunBreaks | saced/SaceExcutor.cpp:487-592 | START, PAUSE, RESTART, the service's end and one more second reach it from the start |
| ServiceAsWritten.LongCommandBreaks | saced/SaceExcutor.cpp:482-505 | in any state, START of a new name with a command of 128 characters or more goes past the buffer; intended, it does not |
| ServiceAsWritten.LongestCommand | libsace/include/sace/SaceServiceInfo.h:28 | 127 characters are run, 128 are not |
| ServiceAsWritten.StepAsWrittenExactly | saced/SaceExcutor.cpp:462-711 | an event is handled as intended if and only if it starts no new name with a command of 128 characters or more, resumes no paused service, and its sweep collects at most one |
| ServiceAsWritten.RunAsWrittenExactly | saced/SaceExcutor.cpp:462-711 | a run goes through the intended states if and only if every event is such |
| ServiceAsWritten.HarmlessRunsEndSame | saced/SaceExcutor.cpp:462-711 | those runs of the code end as the intended ones |
| ServiceTrace.SweepConservesExactly | saced/SaceExcutor.cpp:640-711 | a sweep ends each reaped service once for each registered writer, if and only if waitpid knows every child |
| ServiceTrace.RunOwes | saced/SaceExcutor.cpp:462-711 | over every run and any answers of waitpid: the ended lives of a label that a writer was registered in, less its responses, grow exactly by the lives whose child waitpid did not know |
| ServiceTrace.RunConserves | saced/SaceExcutor.cpp:462-711 | over every run: starts and ends of a name alternate, each registered writer is told the end of each life once and nobody else is, if and only if waitpid knew every child on the way |
| ServiceTrace.PrefixInOrder | saced/SaceExcutor.cpp:532-538 | at every prefix of the outputs starts minus ends of a name is 0 or 1, and a response follows its OK result |
| ServiceTrace.WholeLifeOwes | saced/SaceExcutor.cpp:390-452 | from start-up to destructor, whatever waitpid answers: responses and lost lives add up to the lives a writer was registered in |
| ServiceTrace.WholeLife | saced/SaceExcutor.cpp:390-452 | from start-up to destructor every started service ends, and each writer gets exactly one response per life it was registered in, if and only if waitpid knew every child |
| ServiceTrace.ToldOnce | saced/SaceExcutor.cpp:390-452 | for a label given once: each distinct registered writer got exactly one response and nobody else got one |
| ServiceTrace.RecycledLabelToldTwice | saced/SaceExcutor.cpp:487-497 | the same START twice at the same address, with an exit between, is allowed and tells the writer twice under one label |
| ServiceTrace.Lifecycle | saced/SaceExcutor.cpp:541-596 | RUNNING is re-entered only from PAUSED, FINISHING_USER only by an accepted STOP and left only by death |
| ServiceTrace.UserEndOnlyAfterStop | saced/SaceExcutor.cpp:674-679 | a USER response for a label goes out only if a STOP of it was accepted earlier while it ran or was paused |
| MessageQueue.NextKeepsInv | saced/SaceExcutor.cpp:305-383 | every step keeps: accepted = executed, in hand and queued, in order; the queue is covered by tokens |
| MessageQueue.RunKeepsInv | saced/SaceExcutor.cpp:305-383 | so does every interleaving with time-outs and signals |
| MessageQueue.OfferAccepted | saced/SaceExcutor.cpp:305-313 | before shutdown an offered message is accepted, at the end of the queue, with a token for it |
| MessageQueue.NothingAfterExit | saced/SaceExcutor.cpp:305-383 | after shutdown none is, a woken thread exits, and one that exited executes nothing more |
| MessageQueue.ShutdownSteps | saced/SaceExcutor.cpp:244-250 | shutting down sets the flag, then posts once; a time-out leaves the queue alone |
| MessageQueue.SignalWakes | saced/SaceExcutor.cpp:351-382 | a signal wakes a waiting thread without a token and it takes what is queued all the same |
| MessageQueue.BlockedMeansEmpty | saced/SaceExcutor.cpp:341-383 | blocked at zero with no producer mid-post means the queue is empty and all accepted messages are executed |
| MessageQueue.ShutdownNeverBlocks | saced/SaceExcutor.cpp:244-255 | after shutdown posted, a waiting thread has a token and exits on it |
| MessageQueue.ThreadDrainsQueue | saced/SaceExcutor.cpp:351-382 | with no producer mid-post the thread alone executes all accepted messages in order |
| Rendezvous.NextKeepsInv | libsace/SaceSender.cpp:235-313 | whatever the server sends: every result is in exactly one of on the socket, parked, delivered to one call, dropped; a call returns only results with its own sequence |
| Rendezvous.RunKeepsInv | libsace/SaceSender.cpp:235-313 | for any callers, any results, any interleaving and both forms |
| Rendezvous.ReceiveAnswered | libsace/SaceSender.cpp:306-313 | the first result sent is received first, parked unless its key is taken, and every sleeping call is woken |
| Rendezvous.OutcomesMean | libsace/SaceSender.cpp:249-299 | a call times out only past its deadline, fails only by a failed write or wait, and returns only what was parked under its sequence when it looked |
| Rendezvous.ParkedIsReturned | libsace/SaceSender.cpp:235-299 | a result parked under a sequence nobody waits for is the only one the next call with it can return |
| Rendezvous.OwnAnswerExactly | libsace/SaceSender.cpp:235-299 | in any state, a call returns only results about its own command, in every run before its sequence is used again in which the server sends under it only answers to commands that carry it, if and only if, when it was sent, nothing was parked under the sequence or on the socket and no earlier command with it was unanswered |
| Rendezvous.ForeignResultSpoils | saced/SaceEvent.cpp:365-372 | one result about something else, sent under the sequence of a waiting unanswered call, is enough to end that |
| Rendezvous.LaterSendSpoils | libsace/SaceObj.cpp:108 | so is using the sequence again before the call looks |
| Rendezvous.AnswerReachesExactly | libsace/SaceSender.cpp:267-313 | an answer to a waiting call with nothing else ahead under its sequence can be returned by it if and only if it carries that sequence |
| Rendezvous.ReusedSequenceReturnsStale | libsace/SaceObj.cpp:108 | after a call timed out unanswered, the next call with its sequence can return the late answer as its own |
| Rendezvous.WakeUpsExactly | libsace/SaceSender.cpp:267-284 | looking before each wait no thread sleeps on a parked result; as written, exactly the runs where none came early |
| Rendezvous.ExpiryMeansNotParked | libsace/SaceSender.cpp:267-299 | in the intended form, from any state: when a deadline passes in the wait, each result received under the call's sequence was returned by another call of the sequence or dropped for a parked one |
| Rendezvous.TimeOutMeansUnanswered | libsace/SaceSender.cpp:267-299 | so if nobody else waits for the sequence and nothing was parked under it, nothing with that sequence has been received since the call was sent, no answer to it that carries it in particular |
| Rendezvous.RefusedCallTimesOut | saced/SaceReader.cpp:53-60 | a refused call, in both forms: the answer is received and parked under sequence 0 and the call times out |
| Rendezvous.EarlyResultTimesOut | libsace/SaceSender.cpp:267-276 | as written an early result is reported as a time-out while it is parked |
| Parcels.TextReads | libsace/SaceTypes.cpp:65-66 | a written string is read back wherever it stands in the data |
| Parcels.TextsRead | libsace/SaceParams.cpp:60-63 | a written vector of strings is read back |
| WireLayout.NumbersOnWire | libsace/SaceTypes.cpp:25-33 | numbers are little-endian, the low word of a 64-bit number first |
| WireLayout.BytesOnWire | libsace/SaceTypes.cpp:71-82 | a byte takes four, sign-extended; a boolean is one or zero |
| WireLayout.BlobOnWire | libsace/SaceTypes.cpp:68 | raw bytes are followed by zeros up to a multiple of four |
| WireLayout.TextOnWire | libsace/SaceTypes.cpp:65-66 | a string is its length, its UTF-16 units low byte first, a zero unit, and zeros up to a multiple of four |
| WireLayout.PastTheEnd | libsace/SaceTypes.cpp:94-101 | past the end a read gives zero or nothing and takes nothing |
| WireLayout.WordsRead | libsace/SaceTypes.cpp:103-117 | any word but zero reads as true, and a byte is the low byte of a word, signed |
| WireLayout.FailingStrings | libsace/SaceParams.cpp:73 | a vector whose first string cannot be read has as many empty ones |
| WireLayout.TruncatedExtra | libsace/SaceTypes.cpp:100-101 | extra bytes that are not all there stay zeros and are not taken |
| WireLayout.SmallestAccepted | saced/SaceReader.cpp:238-250 | nine bytes are enough of a header for a command and thirteen for a result or response |
| WireLayout.CommandWritten | libsace/SaceTypes.cpp:61-92 | every command is written as type, sequence, label, name, command, extra bytes, union and parameters, in this order and behind the length |
| WireLayout.ResultWritten | libsace/SaceTypes.cpp:264-278 | every result is written as header type, label, sequence, name, type, status, extra bytes and descriptor object, behind the length |
| WireLayout.ResponseWritten | libsace/SaceTypes.cpp:353-363 | every status response is written as header type, label, name, type, status and extra bytes, behind the length |
| WireLayout.CommandRead | libsace/SaceTypes.cpp:94-123 | what stands in the data in that order, behind any length and before anything, is the command read, if and only if it is representable |
| WireLayout.ResultRead | libsace/SaceTypes.cpp:280-294 | likewise every result |
| WireLayout.ResponseRead | libsace/SaceTypes.cpp:365-375 | likewise every status response |
| Codec.CommandRoundTrip | libsace/SaceTypes.cpp:61-123 | decoding an encoded command gives it back, length filled in, if and only if its parameters have the type it selects and an unknown type carries no union |
| Codec.CommandReads | libsace/SaceTypes.cpp:94-123 | so does decoding any data that begins with it, whatever follows |
| Codec.CommandOverrunsExactly | libsace/SaceTypes.cpp:100-101 | whatever the other fields and whatever follows, the extra bytes overrun their buffer if and only if the stored length exceeds it |
| Codec.ParamsRead | libsace/SaceParams.cpp:135-155 | nested parameters come back if and only if their dynamic type is the one the command's type selects |
| Codec.ResultRoundTrip | libsace/SaceTypes.cpp:264-294 | every result comes back, whatever descriptor object Parcel appended |
| Codec.ResponseRoundTrip | libsace/SaceTypes.cpp:353-375 | every status response comes back, its own type apart from its header's |
| Codec.BackPatched | libsace/SaceTypes.cpp:25-33 | filling in the length stores the whole size and changes no later byte |
| Codec.FramingExactly | saced/SaceReader.cpp:238-250 | the whole message passes both size tests; every proper prefix fails one if and only if the size fits 32 bits |
| Codec.CommandFraming | saced/SaceReader.cpp:238-250 | framing of commands with their 9-byte header test |
| Codec.ResultFraming | libsace/SaceSender.cpp:178-216 | framing of results with their 13-byte header test, descriptor object included |
| Codec.ResponseFraming | libsace/SaceSender.cpp:178-216 | framing of status responses |
| Codec.ReadDelivers | saced/SaceReader.cpp:227-255 | of several commands on the socket, a read of any size gives the first if it holds it as a whole, else nothing, and the rest of it is lost |
| Codec.OneReadExactly | saced/SaceReader.cpp:206-255 | a read yields all that was sent if and only if that is one whole command |
| Codec.WriteCommand | libsace/SaceTypes.cpp:61-92 | writing field by field and patching the length gives the encoding |
| Codec.ReadCommand | libsace/SaceTypes.cpp:94-123 | reading field by field is the decoding, on any bytes |
| Codec.WriteResult | libsace/SaceTypes.cpp:264-278 | writing a result gives its encoding, with the descriptor object for type FD |
| Codec.ReadResult | libsace/SaceTypes.cpp:280-294 | reading a result is its decoding |
| Codec.WriteResponse | libsace/SaceTypes.cpp:353-363 | writing a status response gives its encoding |
| Codec.ReadResponse | libsace/SaceTypes.cpp:365-375 | reading a status response is its decoding |
| Codec.PeekThenRead | saced/SaceReader.cpp:243-255 | the header peeked at before rewinding is that of the full decoding, on any bytes |
| Triggers.TriggeredExactly | libsace/SaceParams.cpp:27-48 | a trigger fires if and only if its condition, compared as C strings, holds and it is unspent, and is spent then |
| Triggers.PropertyAsked | libsace/SaceParams.cpp:27-37 | the property asked for ends at its key's first NUL, and so does its value |
| Triggers.Service.PollTriggers | saced/SaceEvent.cpp:128-133 | the loop over the triggers, updating them in place, is the short-circuit poll |
| Triggers.PollSpendsOne | saced/SaceEvent.cpp:128-133 | a poll that answers true spends exactly one trigger; one that answers false changes nothing |
| Triggers.StartsAreSpentTriggers | saced/SaceEvent.cpp:214-218 | over any properties, true answers equal triggers newly spent: at most one each |
| Triggers.FiresWithin | saced/SaceEvent.cpp:128-133 | a trigger at index i whose condition stays true fires within i + 1 polls |
| Triggers.ParseEventParams | libsace/SaceParams.cpp:157-168 | the triggers of an event, its properties in order and then boot; it reads past the values if and only if there are more keys |
| EventTable.TrimSpaceChar | saced/SaceEvent.cpp:601-614 | the two trimming loops |
| EventTable.NextTokenOf | saced/SaceEvent.cpp:524-561 | the token loops, with the cut of one character too many, doubled quotes and the erasure that throws |
| EventTable.Table.ParseEventFromIni | saced/SaceEvent.cpp:616-658 | one line's effect on the parser's state and on the table, which stays in the order of its names |
| EventTable.Table.ReadIniFile | saced/SaceEvent.cpp:563-599 | the getline loop parses every line delivered and finishes the last event |
| EventTable.Table.WriteIniFile | saced/SaceEvent.cpp:780-857 | the table's lines are printed, or a chunk overflows the buffer, which happens if and only if one does not fit |
| EventTable.InsertKeepsSorted | saced/SaceEvent.cpp:625-627 | inserting an event keeps the table in order |
| IniLines.CommentsChangeNothing | saced/SaceEvent.cpp:636-637 | in any parser state, comments among any lines leave what is read as it is |
| IniLines.BlankEndsService | saced/SaceEvent.cpp:623-633 | a blank line inserts the service's event with its properties and a boot trigger, unless its name is there, and then the first stays; outside a service it does nothing |
| IniLines.AttributeLine | saced/SaceEvent.cpp:652-770 | inside a service a line of words in any spacing is an attribute that its first word selects; an unknown one or one without a value changes nothing, and none starts a service |
| IniLines.PropertyTrigger | saced/SaceEvent.cpp:738-750 | a property trigger adds its key from the colon on and its value from the equal sign on |
| IniLines.OtherTrigger | saced/SaceEvent.cpp:738-762 | a trigger that is no property, or has no colon or no equal sign after it, changes nothing |
| IniLines.ServiceLineStarts | saced/SaceEvent.cpp:524-561 | an ended service line gives its first word with quotes doubled as the name and what is left after as many characters as the command; without a command it starts nothing |
| IniLines.NeverThrows | saced/SaceEvent.cpp:524-530 | next_token throws for a line of blanks only, which the parser never gives it |
| IniLines.FileIs | saced/SaceEvent.cpp:797-857 | the whole file that is written, character by character, and exactly when a chunk overflows instead |
| LastLine.CutExactly | saced/SaceEvent.cpp:524-561 | any line that holds a service is cut to its token and command if and only if it was delivered with its NUL |
| LastLine.ServiceLineExactly | saced/SaceEvent.cpp:524-561 | the line `n c` gives name n and command c if and only if it was delivered with its NUL; without it the command loses its last character |
| LastLine.LongLineEndsReading | saced/SaceEvent.cpp:579-594 | a line longer than the buffer is delivered without its end and NUL, and nothing after it is read |
| LastLine.LastServiceIntactExactly | saced/SaceEvent.cpp:563-599 | the last service line of a file is intact if and only if a newline ends it |
| LastLine.LastLineExactly | saced/SaceEvent.cpp:563-658 | for any last line outside a service, with a new name, the newline makes no difference if and only if the line is blank, a comment, or has no command |
| LastLine.LastCharacterLost | saced/SaceEvent.cpp:524-599 | the file `n abc` without a newline gives the command `ab` |
| IniRoundTrip.ParsesEvent | saced/SaceEvent.cpp:616-770 | the lines of one printed event insert that event, reread |
| IniRoundTrip.ReadUndoesWrite | saced/SaceEvent.cpp:563-857 | any table of printable events is written without overflow and comes back in order, as reread |
| IniRoundTrip.PrintsSameExactly | saced/SaceEvent.cpp:797-857 | for every event: its service line gains one space, and the other lines print as before if and only if it has no groups and boot is its only trigger |
| IniRoundTrip.ChunksFitFor | saced/SaceEvent.cpp:798-824 | for every event, after any number of cycles its chunks fit if and only if the service line has that many bytes left in the buffer |
| IniRoundTrip.SurvivesCycles | saced/SaceEvent.cpp:798-857 | a printable event with only a boot trigger stays printable for exactly as many cycles as its service line has bytes left |
| EventUser.IdIs | libsace/SaceParams.cpp:87-132 | a string that starts with a letter is an account, any other a number, and an empty or failing one the default |
| EventUser.GidsOneByOne | libsace/SaceParams.cpp:93-132 | what is kept for each supplementary group: the variable's old value, or what a failing number gave |
| EventUser.ParseSuppGids | libsace/SaceParams.cpp:93-96 | the loop over the supplementary groups, with the variable it carries from one to the next |
| EventUser.GidsInverted | libsace/SaceParams.cpp:93-96 | each group is either decodable or in the list: none is kept if and only if all decode |
| EventUser.GidsExactly | libsace/SaceParams.cpp:93-96 | when all decode, the list is the intended one if and only if there are no groups |
| EventUser.RereadUserExactly | libsace/SaceParams.cpp:81-132 | for any event, lookup and number parser: user and group are what they were after writing and reading if and only if they were not left empty, or parsing nothing gives the default |
| EventUser.RereadLabelExactly | saced/SaceExcutor.cpp:93 | the security label is what it was if and only if it was not left empty; an empty one is set after a rereading |
| EventUser.RereadAgainStays | saced/SaceEvent.cpp:700-718 | user, group and label are the same after any further cycle |

## Left out

- Binder transport, Looper internals, sockets, select and passing of file descriptors: code of libraries and the kernel.
- Codec.ReadResult: the descriptor itself travels out of band and is not a field of the model; for type FD the object that Parcel appends is opaque bytes.
- Parcels.TextReads: strings longer than Parcel accepts, for which the code ignores Parcel's error, are not modelled.
- Child process setup: setuid, setgid, setrlimit, capabilities, setexeccon, prctl and exec are system calls with no algorithm behind them; `EventUser` has what they are called with, limits apart.
- EventUser.RereadUserExactly: getpwnam and strtoul are parameters, of what they see of a string.
- Rendezvous.NextKeepsInv: after a failed write the code also closes the socket and destroys the mutex and the condition variable (libsace/SaceSender.cpp:250-253, 112-123); the model assumes that no other call is waiting then, and that results come one to a read.
- Codec.CommandOverrunsExactly: whether Parcel then copies anything depends on the bytes that follow; the model takes a length over the buffer's size as the failure.
- ServiceExcutor.Excutor.OnUninit: is one event among the executor's, although uninit() calls it on the stopping thread before the executor's own thread is joined (saced/SaceExcutor.cpp:287-294); the two threads share the indexes without a lock there, and the model assumes that they do not overlap.
- The event executor's supervision of its services: the result type it waits for is not the one the service executor sends.
- Pipeline.NoOrphansInAnyRun: shutdown, when executors drop messages, is not part of the interleavings; MessageQueue has it for one executor.
- The normal executor's onUninit, and the binder reader's own client table.
- Whether a STOP of a paused service ever ends it: delivery of signals to stopped processes is the kernel's.
- EventTable.Table.ParseEventFromIni: capability and rlimits lines are accepted and set nothing, because capabilities and limits are no part of the modelled parameters; printed without a line end and parsed by name, they do not come back.
- EventTable.Table.WriteIniFile: prints no capability and rlimits lines, for the same reason.
- EventTable.Table.ReadIniFile: opening the file, and falling back to the default one, is not modelled.
- An event command's own type and flags, which the file does not carry.
- Clock time, start-time strings, name tables, logging, thread creation failures and memory exhaustion.
- SaceManager, SaceObj and the Java wrappers: they build requests; only their reuse of sequence numbers matters here.

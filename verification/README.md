# Ron, verified

Ron is a desktop assistant: it listens for a wake phrase, answers in speech, runs tools on the
laptop, remembers on an external drive and talks to a tablet. This project models the parts of
it that keep state over time and proves what they promise, for every input, every interleaving
and every sequence of calls.

`dafny verify dfyconfig.toml` checks everything.

| file | what it models |
|---|---|
| `storage_view.dfy`, `storage_manager.dfy`, `storage_runs.dfy` | the drive-aware storage manager: saves, reads, deletions, the local queue, tombstones, synchronisation, drive identity, and whole runs of it |
| `wav_stream.dfy`, `wav_writer.dfy`, `wav_grammar.dfy` | the streaming RIFF/WAVE parser, refined against a parser of the whole byte string, a writer whose files it hears, and what a wave file is, said without a parser |
| `speech_text.dfy`, `speech_session.dfy`, `speech_tokens.dfy`, `speech_heard.dfy` | text made ready for speech, its cut into requests, the session that speaks a reply while it is written, replies longer than its buffer, and what of a reply is heard |
| `turn_handoff.dfy` | the listener and the response threads of the voice service, interleaved |
| `wake_listener.dfy` | the wake and follow-up window machine of the listening loop |
| `task_rollback.dfy`, `task_saga.dfy` | ordered tool steps, the four tools that can take back what they did, and the reverse compensation |
| `task_runs.dfy`, `task_outcomes.dfy`, `task_manager.dfy` | background tasks across cancellation, shutdown and restart: the interleaved machine, what a task's status says of its run, and the manager object whose methods are its steps |
| `confirmation.dfy` | plans that need a confirmation |
| `inference_scheduler.dfy` | the priority gate in front of the language model |
| `audio_stream.dfy` | the sample ring buffer and the streaming resampler |
| `json_framing.dfy`, `json_cuts.dfy` | newline framing of JSON messages, and malformed streams |

Code that works by changing fields is a class whose methods are proved against a specification,
and what is promised is proved of the specification. Threads that share fields are a state machine
over the steps between their locks; its lemmas speak of every run (`After(events)`), and the
methods of the class beside it are proved to be those steps. What the program cannot foresee (a
disk or a helper that fails, a cancellation, what a recogniser hears, when a thread runs) is an
argument, or an arbitrary choice wherever it can happen. Where it is a choice, a switch (`calm`,
`roomy`, `alone`, `interruptible`) says whether it is open at all, and with nothing going wrong the
contracts say exactly what the call does.

Some things the code does that a reader might not expect are stated exactly:

- A save that reaches the drive is seen if and only if no older queued object of the same path
  stands before it (`StaleObjectShadowsSave`). That is why an online manager must have nothing
  queued, and why a queued object damaged on the laptop's own disk breaks the storage: it stays in
  the queue and goes on being read. `SaveBytes` says which unsuccessful saves can cause that, and
  `TakingBackRevives` when a save refused by a full queue brings a deleted file back.
- The storage takes saves under the names of its own two files. `SaveThenReconnect` shows what
  becomes of them, and `Run` that without writes to the identity file no drive but one that carries
  the bound identity is ever written to.
- A task that reads CANCELLED can read RUNNING again. `ClosedStatusChangesOnlyDuringPreflight` says
  exactly when, `ClosedIsNotAbsorbing` shows such a run, and `HandlersRunAtMostOnceInOrder` shows
  that no tool runs for it.
- A task that asks the user back is not compensated, not even when it is then cancelled, and neither
  is the step that stops a task. `WorldIsBackExactly` says when the world is back all the same;
  `WaitingKeepsTheVolume` and `LateStepKeepsItsEffect` are runs after which it is not.
- A reply longer than the session's buffer is cut to it token by token, so how it is cut into tokens
  can decide what is heard. `WhatSurvivesIsSaid` reduces what is spoken to the text that got into the
  buffer, `CutsMatterExactly` says when that depends on the cuts, and `GapIsHeard` is such a reply.
- One malformed line loses the good messages before it that arrived in the same read
  (`ReadErrsExactly`, `LostWithTheirRead`), so on malformed streams the cut into reads matters:
  `CutsDoNotMatterExactly` says on which.

## Model

| member | source | states |
|---|---|---|
| StorageRuns.Run | ron/storage/manager.py:135-338 | every sequence of saves, deletions, reads, refreshes, synchronisations, restarts, new drives and changes of weather, with any failures, works on one plain map for as long as the storage is sound: a stored save puts, a refused one was over the quota or short of space, a deletion removes, a read answers from the map and while online misses nothing in it, nothing else changes it but a refresh that takes another drive into use; while nobody writes under the name of the identity file, the drive in use carries the bound identity, every drive keeps its own, and no drive with another one is written to |
| StorageRuns.Perform | ron/storage/manager.py:196-338 | one call does one step of the plain map and leaves the storage sound, unless a save failed on the laptop's own disk; a refresh that finds a usable drive while nothing fails brings the storage online |
| StorageRuns.PerformRefresh | ron/storage/manager.py:135-194 | a refresh leaves the map alone, or exchanges the drive under what is queued on the laptop: for the first drive ever, when the map was the queue alone, or for another drive that carries the bound identity |
| StorageRuns.SaveThenReconnect | ron/storage/manager.py:196-219 | of all paths the program takes, a save on the drive outlives a reconnection except under two names: the probe's, where it is never found again, and the identity file's, where writing any other identity than the bound one gets the drive refused |
| StorageView.StaleObjectShadowsSave | ron/storage/manager.py:200-237 | a save on the drive is what reads see if and only if no different queued object of the path stands before it |
| StorageView.TakingBackRevives | ron/storage/manager.py:198-198 | dropping a tombstone (as a save does before anything else) changes the map exactly if the drive has a file under it |
| StorageView.HiddenChange | ron/storage/manager.py:231-243 | what happens to the drive's file under a tombstone or a queued object is not seen |
| StorageView.WriteToQueue | ron/storage/manager.py:358-375 | queuing a payload, taking its tombstone back and losing the drive's file of that path all at once is a put |
| StorageView.Deleted | ron/storage/manager.py:245-271 | without its row and with a tombstone or no file on the drive, a path is gone and nothing else is |
| StorageView.QueueOverDrive | ron/storage/manager.py:231-243 | whatever drive is in use, the map is what is queued over that drive's files, without the reserved ones and those marked deleted |
| StorageView.DamageNeedsRow | ron/storage/manager.py:358-362 | a change to one object file damages the queue exactly if the file has a row |
| StorageView.SizeOfUpdate | ron/storage/manager.py:344-348 | replacing a row changes the queued bytes by the new size less the old one, in whatever order they are summed |
| StorageView.SizeIsPayload | ron/storage/manager.py:273-281 | the byte count of an intact queue is the total length of its payloads |
| StorageView.NothingPendingIsTheDrive | ron/storage/manager.py:301-338 | with queue and tombstones empty the map is exactly what is on the drive |
| StorageManagement.StorageManager.SaveBytes | ron/storage/manager.py:196-219 | a stored save puts; no other path changes however it ends; it is refused by the quota only if the queued bytes with the new row in place of the old would pass the limit, and for lack of space only if they would not and the disk is short; with no failing disk or database the end is exactly determined: on the drive while online, else queued, or refused for that reason; only the drive in use is written, and its identity file only under that name; soundness is lost exactly if an unsuccessful save changed the object of a queued path; a refusal offline leaves just the tombstone taken back |
| StorageManagement.StorageManager.QueueBytes | ron/storage/manager.py:344-375 | refused exactly if the summed sizes with this row in place of the old one are over the quota, or the disk is short of space, and the refusal says which; otherwise the new row and object, or the unchanged row with whatever object the failure leaves, be it a failed write, a failed read-back or a failed database |
| StorageManagement.StorageManager.PendingBytes | ron/storage/manager.py:273-281 | the sum of the queued sizes |
| StorageManagement.StorageManager.ReadBytes | ron/storage/manager.py:231-243 | what is found is what the map holds, or what stands at a reserved path; while online nothing that is there is not found, and unless the disk fails the answer is exactly what is there |
| StorageManagement.StorageManager.Delete | ron/storage/manager.py:245-271 | a removed path is gone from the map, with its file or under a tombstone; a failed local unlink loses only the queued write; a failed database leaves the tombstones as they were; with nothing failing the path is removed; no other path changes, only the drive in use is touched, and its identity file only under that name |
| StorageManagement.StorageManager.RemoveQueuedWrite | ron/storage/manager.py:401-413 | the row goes before its object, so that nothing else is damaged wherever it stops |
| StorageManagement.StorageManager.DeleteFromDrive | ron/storage/manager.py:250-271 | the file is gone from the drive, or a tombstone stands for it, unless the database fails |
| StorageManagement.StorageManager.SyncDeletions | ron/storage/manager.py:415-434 | stopped after any effect the map is what it was; done, no tombstone is left |
| StorageManagement.StorageManager.SyncWrites | ron/storage/manager.py:306-338 | stopped after any effect the map is what it was; done, exactly the rows whose object is missing or does not match are left |
| StorageManagement.StorageManager.ReplayRow | ron/storage/manager.py:316-330 | write, verify, drop the row, unlink: cut off anywhere, the map and the intact rest of the queue stay |
| StorageManagement.StorageManager.SyncPending | ron/storage/manager.py:297-338 | the whole synchronisation keeps the map, ends with no tombstone and exactly the damaged rows, and writes to no drive but the one in use; a complete one of an intact queue leaves the drive holding exactly the map |
| StorageManagement.StorageManager.VerifyIdentity | ron/storage/manager.py:499-533 | with a binding: accepts exactly a drive that carries it in an identity file that can be read, and writes nothing; without: what it accepts carries the identity it returns, and only the identity file changed |
| StorageManagement.StorageManager.BindStorageIfNeeded | ron/storage/manager.py:535-541 | a binding is made once and never changed |
| StorageManagement.StorageManager.ProbeWriteAccess | ron/storage/manager.py:622-625 | the map is unchanged and the probe's path is empty afterwards |
| StorageManagement.StorageManager.RefreshOnce | ron/storage/manager.py:135-194 | the map stays unless another drive comes into use; the drive in use carries the binding unless a write of the identity file is queued; online means no tombstone and nothing that could be replayed, and with nothing failing a drive that carries the binding (or could take it) does come online; a drive without the bound identity ends in ERROR untouched; a new connection erases what was at the probe's path; from an intact queue the result is sound |
| WavStream.StreamWav | ron/voice/speech.py:196-310 | however the response is cut into reads and whenever the stop event is set: the stream is stopped if and only if one of its looks at the event found it set, and it looks once for every read and at most twice more; not stopped and up to 16 MiB, it ends as the parser of the whole string says, with its samples or its error; always, what was heard is a beginning of what can be heard (all of it when the audio breaks off), and every chunk carries the file's rate |
| WavStream.ReadHeader | ron/voice/speech.py:223-231 | the header is accepted with the whole-string parser's format and data length, or refused with its error, or cut short |
| WavStream.ReadChunks | ron/voice/speech.py:237-279 | the same, of the chunks between the magic and the audio |
| WavStream.DecodeBody | ron/voice/speech.py:281-310 | the audio ends with the verdict on the whole audio bytes: incomplete, empty, too long, or all heard |
| WavStream.Reader.Fill | ron/voice/speech.py:206-221 | after a fill the buffer and the reads to come are the same bytes as before, and it brought enough, or the stream was stopped, short or too long; it looks at the event before every read and reads nothing once it is seen |
| WavStream.PcmDecoder.Absorb | ron/voice/speech.py:295-308 | each chunk is cut to the declared length, its whole frames are heard and the rest is carried; the frame count passes two minutes only if the whole audio does |
| WavStream.PcmDecoder.Conclude | ron/voice/speech.py:307-310 | the verdict from the carry, the bytes still owed and the frame count is the verdict on the whole audio |
| WavStream.DecodeConcat | ron/voice/speech.py:169-191 | decoding can be cut between any two frames |
| WavStream.TooManyFrames | ron/voice/speech.py:302-304 | too many frames in a prefix are too many altogether |
| WavStream.ReadFormat | ron/voice/speech.py:263-279 | an accepted format is mono PCM of 1 to 4 bytes at 8 to 96 kHz |
| WavWriter.FormatsAreRead | ron/voice/speech.py:262-274 | a format payload of any length is accepted as a format if and only if that is a valid one and its first 16 bytes are those a writer writes for it, the bytes per second aside |
| WavGrammar.AcceptedExactly | ron/voice/speech.py:221-310 | a byte string is accepted if and only if it is a wave file: RIFF, any size, WAVE, proper chunks of together at most 64 KiB with every format among them readable, then the audio chunk of whole frames, at least one and at most two minutes by the last format, as long as declared or to the end of the string |
| WavGrammar.ChunksAre | ron/voice/speech.py:237-276 | what the chunk loop accepts is exactly spelled by the chunks it read, the audio's header and the rest, under the last format |
| WavWriter.HearFile | ron/voice/speech.py:196-310 | every file with other chunks before and after its format, padded or not, fields of the writer's own behind the format, its length declared or 0xFFFFFFFF, and up to two minutes of samples of any width is heard, in whatever reads it arrives, as exactly those samples at its rate if and only if it has at most 16 MiB; a larger one is refused for its size |
| WavWriter.FileParses | ron/voice/speech.py:169-279 | such a file is read back as written by the parser of the whole string, which needs all of it |
| WavWriter.FrameIsHeard | ron/voice/speech.py:169-191 | decoding inverts the encoding of every sample of 8, 16, 24 and 32 bits |
| WavWriter.OthersAreSkipped | ron/voice/speech.py:247-262 | chunks of other names are stepped over, odd ones with their padding byte |
| SpeechText.PrepareFits | ron/voice/speech.py:609-641 | for every cleaning function the prepared text has single spaces only, never exceeds its limit, and is the whole cleaned text if that fits, else its clipped beginning with the note about the rest; it is empty only if nothing was left |
| SpeechText.CleanedKeepsTheWords | ron/voice/speech.py:609-626 | for every text and cleaning function: without white space the cleaned text and what the regular expressions made of the text are the same string, and two letters next to each other have a space between them in the one exactly if they have white space between them in the other |
| SpeechText.ClipKeepsAllItCan | ron/voice/speech.py:633-641 | a clip ends with the last sentence that ends late enough; if there is none it keeps every word but the last, and closes with a full stop in place of marks that would dangle |
| SpeechText.ClippedIsTidy | ron/voice/speech.py:633-641 | a clipped text is a non-empty beginning of the text, closed with at most one added full stop |
| SpeechText.PrepareCloudChunks | ron/voice/speech.py:678-727 | the loop yields the specified requests, at most `maximum_chunks`, each within the target; it never leaves early on an empty chunk |
| SpeechText.ChunksFit | ron/voice/speech.py:697-727 | every part within the target is a request as it is, and the last one is clipped to it; no request is empty but a clipped last one, and that exactly if cleaning its text leaves nothing |
| SpeechText.PiecesKeepWords | ron/voice/speech.py:701-727 | unless a word is longer than a request, joining the parts with spaces gives the prepared text back, so every cut is between words |
| SpeechText.PiecesKeepLetters | ron/voice/speech.py:701-727 | however long the words, nothing but white space is lost between the parts |
| SpeechText.CutsAfterTheLastLateSentence | ron/voice/speech.py:711-721 | a sentence ending in the second half of the window is where the cut is, and the last such one |
| SpeechText.CutAtExactly | ron/voice/speech.py:710-722 | where every cut is: behind the last sentence if it ends in the second half of the window, else behind the last clause if that does, else at the last space, else through the word |
| SpeechText.CutAt | ron/voice/speech.py:710-722 | the cut is inside the window, and through a word only if the window has no space |
| SpeechSession.SpeakReply | ron/voice/speech.py:425-557 | a reply spoken by the cloud voice stays within its characters, requests and characters a request; uninterrupted, as it always is if nobody may cancel it, it is what would be said of as much of the finished text as got into the buffer, which is all of it exactly if no token overflowed, as when the reply is no longer than the buffer |
| SpeechHeard.PlainTokensAreHeard | ron/voice/speech.py:425-557 | for every cleaning that keeps the letters and every cut into tokens: a reply whose sentences each fit a request, with one request and 120 characters left for what is behind the last of them, is heard with every letter in order |
| SpeechHeard.SpeakLocally | ron/voice/speech.py:439-467 | a reply spoken by the local voice is handed over in pieces that together have all its letters in order, whatever the tokens; under such a cleaning a reply within the character budget is heard with every letter |
| SpeechSession.SplitExactly | ron/voice/speech.py:440-443 | splitting a text at its sentence ends takes out nothing but white space: the parts are the complete sentences in order, and what is kept has no sentence end |
| SpeechHeard.FittingTextIsSaid | ron/voice/speech.py:477-501 | a text within the budget left is said, and said as it is cleaned |
| SpeechHeard.LongTextIsClipped | ron/voice/speech.py:489-493 | a longer one is clipped if at least 120 characters are left, and otherwise not said |
| SpeechHeard.RequestsHoldSentence | ron/voice/speech.py:519-523 | a sentence is taken to need at most n requests if and only if n requests hold all of it as it is prepared |
| SpeechSession.WhatSurvivesIsSaid | ron/voice/speech.py:425-467 | for every reply and every cut into tokens, the texts spoken are those of the text that got into the buffer |
| SpeechSession.TokensMakeNoDifference | ron/voice/speech.py:425-467 | however a reply is cut into tokens that do not overflow the buffer, the same texts are spoken |
| SpeechSession.AllSurvivesExactly | ron/voice/speech.py:433-438 | all of a reply gets into the buffer if and only if no token overflows it |
| SpeechTokens.CutsMatterExactly | ron/voice/speech.py:433-439 | every cut of a text lets the same of it into the buffer if and only if it fits, or the beginning of it that fills the buffer has no sentence ready to be said |
| SpeechTokens.GapIsHeard | ron/voice/speech.py:433-439 | the failing input: two sentences far apart, the second spoken if it is a token of its own and lost if the reply is one token |
| SpeechSession.DrainInTwoGoes | ron/voice/speech.py:503-531 | draining early and again after more text comes to the same as draining once afterwards |
| SpeechSession.DrainKeepsBudgets | ron/voice/speech.py:503-531 | draining stays within the budgets and leaves a request for the end of the reply |
| SpeechSession.EmitKeepsBudgets | ron/voice/speech.py:477-501 | whatever the text, one more emission keeps the totals within all budgets and says at most one thing more |
| SpeechSession.RemainderKeepsBudgets | ron/voice/speech.py:533-557 | so does what is left at the end |
| SpeechSession.Perform | ron/voice/speech.py:425-475 | any calls in any order keep the budgets and counters, take nothing back, and say nothing after a cancellation or an end |
| SpeechSession.StreamingSpeechSession.EmitText | ron/voice/speech.py:477-501 | the specified text is said, or nothing if cancelled, which only somebody who may cancel can do; the counters stay exact and no formatter is made outside its range |
| SpeechSession.StreamingSpeechSession.DrainCloudSentences | ron/voice/speech.py:503-531 | the loop ends, having said what is specified, or a beginning of it if cancelled on the way |
| SpeechSession.StreamingSpeechSession.EmitCloudRemainder | ron/voice/speech.py:533-557 | likewise for the remainder |
| SpeechSession.StreamingSpeechSession.Feed | ron/voice/speech.py:425-452 | what a token adds to what is said and kept, for the cloud and the local voice, and that it adds nothing once closed or cancelled |
| SpeechSession.StreamingSpeechSession.Finish | ron/voice/speech.py:454-467 | everything kept is said as specified, once |
| SpeechSession.StreamingSpeechSession.Cancel | ron/voice/speech.py:469-475 | closed with nothing kept |
| TurnHandoff.RunKeepsInvariant | ron/voice/service.py:619-713 | every interleaving of the listener with its response threads keeps the shared flags in step with the one turn in flight and the ledger of requests complete |
| TurnHandoff.OneHandlerAtATime | ron/voice/service.py:655-673 | at most one prompt handler call is in progress |
| TurnHandoff.SpeechIsHeardOut | ron/voice/service.py:686-702 | in every run: between a reply with speech and the end of the wait for it, that speech ended, unless the service was stopped before |
| TurnHandoff.NextHandlerWaits | ron/voice/service.py:686-713 | in every run: no handler is called after a reply with speech before that speech has ended, unless the service was stopped before; so a request handed over waits for it |
| TurnHandoff.TheTurnGoesOn | ron/voice/service.py:619-713 | no run gets stuck: while a turn is active one of its threads can take its next step, or the speech it waits for is under way; otherwise the listener can take a request |
| TurnHandoff.ActiveExactlyWhileInFlight | ron/voice/service.py:190-197 | the turn reads as active exactly while some response thread has not finished: no gap, no stuck flag |
| TurnHandoff.QueuedMeansInFlight | ron/voice/service.py:632-637 | a queued request has a turn in flight that will look at it |
| TurnHandoff.EveryRequestHasOneFate | ron/voice/service.py:619-713 | requests are handled at most once and in the order heard; with no turn in flight every accepted one was handled, superseded or dropped, and dropped only by a stop |
| TurnHandoff.SupersededByALaterRequest | ron/voice/service.py:632-637 | only the queued request is superseded, and by one heard later |
| TurnHandoff.RunService | ron/voice/service.py:619-713 | every run of the machine is a run of the object, its own sections doing the events under the lock, so what is proved of all runs holds of the object |
| TurnHandoff.VoiceService.QueueIfActive | ron/voice/service.py:632-637 | the second look under the lock queues the request exactly if some response thread has not finished; otherwise the queue is as it was and the listener goes on to dispatch |
| TurnHandoff.VoiceService.HandOver | ron/voice/service.py:705-713 | the last critical section hands over exactly what was queued, unless stopped, and the turn goes on exactly if something was |
| TurnHandoff.VoiceService.FinishReply | ron/voice/service.py:686-691 | from any state a run can reach: no handler is in progress afterwards, and the turn has been active without a gap; the event carries the reply's speech, for which `SpeechIsHeardOut` makes the turn wait |
| TurnHandoff.VoiceService.IsTurnActive | ron/voice/service.py:190-197 | the three flags are set if and only if some response thread has not finished |
| WakeListener.StrictModeConservesWakes | ron/voice/service.py:318-515 | in strict mode, for any number of rounds, a wake lies strictly between any two accepted commands and commands never outnumber wakes |
| WakeListener.WakeBetweenCommands | ron/voice/service.py:318-515 | in any record earned without follow-ups and continuous chat there is a wake after every earlier command |
| WakeListener.NeverMoreCommandsThanWakes | ron/voice/service.py:318-515 | the count, with an unspent licence counting as one wake in hand |
| WakeListener.VoiceListener.Listen | ron/voice/service.py:318-515 | in every mode each accepted command spends a wake, an opened follow-up window or a moment of continuous chat that no other command has spent |
| WakeListener.VoiceListener.HearSegment | ron/voice/service.py:405-450 | a segment is taken up if and only if a wake is pending, or no turn is active and a window is open or continuous chat is on; it then has exactly the outcome its recognition calls for, the record and the window that belong to it, several segments of one read included |
| WakeListener.VoiceListener.ProcessSegment | ron/voice/service.py:528-653 | which recognition ends in which outcome, in both directions: a command is accepted exactly if no turn is active, or a wake came with it where new turns are taken during a reply and it does not interrupt; it is queued exactly if the turn is still active under the lock |
| WakeListener.VoiceListener.MoveWindows | ron/voice/service.py:464-515 | each outcome sets the follow-up window, the cooldown and the chat window to exactly these moments, and no other |
| WakeListener.VoiceListener.FeedDetectors | ron/voice/service.py:382-450 | a wake detected outside the cooldown is recorded, and the first segment of its read is taken up with it |
| WakeListener.WakeThenCommand | ron/voice/service.py:318-515 | a wake phrase followed by a command while no turn is active is accepted, in every mode and from every state |
| TaskRollback.WorldIsBackExactly | ron/agent/task_manager.py:174-410 | a task that did not complete, with no rollback failure reported, leaves the world as it found it if and only if: rolled back, each part was changed by a completed step or left alone by the one that stopped it; closed while it waited for an answer, the completed steps ask for the volume and brightness there were and all they made has been taken away since |
| TaskRollback.WaitingKeepsTheVolume | ron/agent/task_manager.py:301-308 | the failing input: volume down, then a question about the track; cancelled while it waits, the volume stays down and nothing was reported |
| TaskRollback.LateStepKeepsItsEffect | ron/agent/task_manager.py:316-322 | the other failing input: a step that meets its deadline after it took effect |
| TaskRollback.UserWorkIsKept | ron/agent/tools/folders.py:116-144 | no rollback removes a document the user has written to, or touches a reminder that has fired |
| TaskRollback.RollbackRestoresExactly | ron/agent/task_manager.py:395-410 | with every compensation successful the world is back where the task found it if and only if each part was changed by a completed step or untouched by the one that stopped the task |
| TaskRollback.RollbackRestores | ron/agent/task_manager.py:395-410 | a part returns, from any world, as soon as the earliest step that changed it is compensated |
| TaskRollback.LeftAlone | ron/agent/task_manager.py:395-410 | steps that never changed a part leave it alone going forward and coming back |
| TaskRollback.VolumeAddsUp | ron/agent/tools/volume.py:134-146 | adjustments of the volume that stay within 0 and 100 on the way leave the old level plus their sum |
| TaskRollback.BrightnessAddsUp | ron/agent/tools/brightness.py:111-118 | the same of the brightness |
| TaskSaga.TaskRecord.Live | ron/agent/task_manager.py:174-340 | from the first step to whoever closes it: completed, volume and brightness are what the steps ask for in order, and adjustments that stay in range leave the old level plus their sum; with nothing failing and nobody cancelling, steps that create nothing do complete; otherwise the world is back exactly under the conditions of `WorldIsBackExactly` |
| TaskSaga.TaskRecord.Execute | ron/agent/task_manager.py:276-340 | every execution is a run as specified: completed, waiting after a question and compensating nothing, or stopped and rolled back |
| TaskSaga.TaskRecord.Close | ron/agent/task_manager.py:174-224 | cancelling or resolving changes a waiting task only, and compensates nothing |
| TaskSaga.TaskRecord.CompensateCompleted | ron/agent/task_manager.py:395-410 | the reverse loop is the rollback, whatever fails in it; a failure is counted exactly if a compensator reported one |
| TaskSaga.Machine.ControlVolume | ron/agent/tools/volume.py:102-191 | a success leaves the level asked for, or the old one plus the change, cut to 0 and 100, and otherwise the old level; only muting, unmuting and toggling touch the flag; it remembers the level and mute before; a failure did all of it or nothing, and needs a cause |
| TaskSaga.Machine.ControlBrightness | ron/agent/tools/brightness.py:68-145 | the same of the display brightness, in numbers |
| TaskSaga.Machine.CreateBlankDocument | ron/agent/tools/folders.py:79-114 | a success made one new blank file and names it; a failure made none, left one, or removed it again; no existing file is taken over; with nothing failing it succeeds exactly if there is no such file yet |
| TaskSaga.Machine.RemoveEmptyDocument | ron/agent/tools/folders.py:116-144 | the created file goes only while it is blank, and with nothing failing exactly then; otherwise it stays and a failure is reported |
| TaskSaga.Machine.CancelCreatedReminder | ron/agent/tools/reminders.py:39-57 | a pending reminder is called off, one called off already counts as done, one that fired stays and a failure is reported; with nothing failing it succeeds exactly if there is such a reminder that has not fired |
| TaskSaga.Machine.Execute | ron/agent/registry.py:148-219 | a success is recorded truly; a cancelled, late, rejected or failed step had no effect, all of it, or made a document and removed it; only a tool without a compensator asks back, with no effect |
| TaskSaga.Machine.RunCompensator | ron/agent/registry.py:221-247 | of the four compensators: nothing is reported exactly if nothing was changed, unless a failure is reported the part is as the result remembers it, and documents written to and fired reminders are refused |
| TaskRuns.RunKeepsInvariant | ron/agent/task_manager.py:136-340 | every run of submissions, worker moves, cancellations, shutdowns and restarts keeps numbering, queue, calls and worker in step |
| TaskRuns.HandlersRunAtMostOnceInOrder | ron/agent/task_manager.py:247-340 | the handlers run for a task are its steps from the first on, none twice, none before all passed the final preflight, none if it was cancelled while queued |
| TaskRuns.UnreachableForever | ron/agent/task_manager.py:443-464 | a task out of the worker's reach stays so and never has another handler run |
| TaskRuns.RestartAbandonsEverything | ron/agent/task_manager.py:443-464 | a restart puts every task out of reach and marks the unfinished ones failed |
| TaskRuns.RestartKeepsCounter | ron/agent/journal.py:86-96 | recovery from the newest rows gives the next number that would have come anyway |
| TaskRuns.NumbersAreNeverReused | ron/agent/task_manager.py:136-162 | a submission gets a number no task has had, before or after any restart |
| TaskRuns.ClosedStatusChangesOnlyDuringPreflight | ron/agent/task_manager.py:247-275 | a closed task changes status if and only if the worker took it before its cancellation and is at the end of its final preflight |
| TaskRuns.ClosedIsNotAbsorbing | ron/agent/task_manager.py:247-275 | a run in which a cancelled task reads RUNNING |
| TaskOutcomes.StatusHasItsReason | ron/agent/task_manager.py:174-340 | in every run a task reads as it does because the worker, a caller or a restart did what that status says |
| TaskOutcomes.StepsAreCounted | ron/agent/task_manager.py:326-339 | in every run the count of completed steps is that of the handlers called, or one less while the last of them has not succeeded, and all steps for a task that reads COMPLETED |
| TaskOutcomes.CompletedMeansAllRan | ron/agent/task_manager.py:276-340 | a task that reads COMPLETED has had the handler of each of its steps called, in order, and gets no other |
| TaskOutcomes.CancelStopsSoon | ron/agent/task_manager.py:174-340 | after a cancellation at most one more handler of the task is ever called, the one already on its way, whatever happens then |
| TaskOutcomes.CancelledWhileQueued | ron/agent/task_manager.py:179-193 | a task cancelled while it reads QUEUED never has a handler called, whatever happens then |
| TaskOutcomes.NothingRunsUnchecked | ron/agent/task_manager.py:252-268 | before the first handler of a task is called, the final preflight has let as many steps pass as the task has |
| TaskOutcomes.CancelDooms | ron/agent/task_manager.py:107-201 | `cancel` and `stop` bring every task they find unfinished into that state |
| TaskOutcomes.TheWorkerGoesOn | ron/agent/task_manager.py:234-340 | a task in hand can always be moved on, and an idle worker takes the next one if there is one |
| TaskManager.AgentTaskManager.Submit | ron/agent/task_manager.py:136-162 | refused exactly when the queue is full, the marks of earlier stops included; otherwise queued under a number no journal row has, with every other record as it was |
| TaskManager.AgentTaskManager.Trim | ron/agent/task_manager.py:484-491 | only closed tasks go, every one that goes is older than every closed one that stays, and the limit of them stay |
| TaskManager.AgentTaskManager.Cancel | ron/agent/task_manager.py:174-201 | a listed task is closed or asked to stop afterwards, and cancelled while queued it has run nothing; no other record changes |
| TaskManager.AgentTaskManager.CloseWaiting | ron/agent/task_manager.py:203-224 | a listed task waits no more afterwards; one that did not wait is unchanged |
| TaskManager.AgentTaskManager.Stop | ron/agent/task_manager.py:107-124 | the flag, then one record lock after the other while other threads go on: every task listed at the start was asked to stop or is neither queued nor running |
| TaskManager.AgentTaskManager.MarkQueue | ron/agent/task_manager.py:119-122 | the mark for the worker takes a place in the queue if there is one, and no task is touched |
| TaskManager.AgentTaskManager.Execute | ron/agent/task_manager.py:247-340 | with any calls of other threads wherever no lock keeps them out, `stop` and `start` included, the worker comes back idle, the handlers it called are the first steps in order, and the task is out of its reach for good; left alone, a task nobody has cancelled ends finished with every handler called and every step done |
| TaskManager.AgentTaskManager.FirstLook | ron/agent/task_manager.py:247-250 | a task goes on exactly without a cancellation, and is out of the worker's reach for good otherwise |
| TaskManager.AgentTaskManager.FinalPreflight | ron/agent/task_manager.py:252-268 | no handler of the task has run by then, and after a failed preflight none ever will |
| TaskManager.AgentTaskManager.StartRunning | ron/agent/task_manager.py:270-273 | still no handler has run when the record reads RUNNING, and a cancellation asked for before stays asked for |
| TaskManager.AgentTaskManager.LookBeforeStep | ron/agent/task_manager.py:276-284 | exactly the steps before this one have run, and it is run exactly if one is left and neither a cancellation nor a stop was asked for |
| TaskManager.AgentTaskManager.EndStep | ron/agent/task_manager.py:301-334 | a success counts exactly the handlers that ran; after a question no handler of the task is ever called again; after anything else it is rolled back |
| TaskManager.AgentTaskManager.Recover | ron/agent/task_manager.py:443-464 | the newest journal rows come back, as many as are retained, the unfinished ones failed; the next number is the one that would have come anyway, and no task is in the worker's reach |
| TaskManager.AgentTaskManager.NewestRows | ron/agent/journal.py:86-96 | the rows with the highest numbers, as many as the limit or all |
| Confirmation.AgentService.Converse | ron/agent/service.py:127-160 | over every conversation each gated or confirmed acceptance is of exactly the plans presented less than 90 s before the confirmation right in front of it, repeats included, and gated acceptances never outnumber presentations |
| Confirmation.AgentService.HandlePending | ron/agent/service.py:304-329 | a yes to a standing question confirms exactly its plans, and they are accepted exactly if each is still sound and queue or registry take them; a no accepts nothing; a yes to nothing is not an answer |
| Confirmation.AgentService.Respond | ron/agent/service.py:127-160 | a confirmation in time accepts the plans asked about if they are still sound; a new request for sound plans is accepted at once, or asked about if it is gated, and nothing else of it is |
| Confirmation.AskAndConfirm | ron/agent/service.py:127-329 | gated plans asked for and then confirmed are presented, and accepted if and only if the yes comes less than 90 s after the question |
| Confirmation.AgentService.ExecutePlans | ron/agent/service.py:162-253 | the plans are accepted exactly if they are sound, taken, and confirmed or ungated; they are presented, for 90 s, exactly if only a confirmation is missing; otherwise nothing happens |
| Confirmation.AgentService.RepeatPlans | ron/agent/service.py:447-470 | a repeat changes nothing but the level of volume settings; with a level it yields something exactly if that is a percentage and there is a volume setting |
| Confirmation.AgentService.Preflight | ron/agent/registry.py:102-146 | ready exactly if the tool is registered, takes the arguments, is available, and is confirmed or ungated; each refusal has exactly its reason, the confirmation asked for before availability |
| Confirmation.AgentService.ExpirePending | ron/agent/service.py:472-479 | a question, of either kind, is dropped exactly when its time is up |
| Confirmation.EachPresentationOnce | ron/agent/service.py:304-329 | two acceptances rest on two presentations, the second made after the first acceptance |
| Confirmation.NeverMoreThanPresented | ron/agent/service.py:162-253 | gated acceptances never outnumber presentations |
| InferenceScheduling.RunKeepsInvariant | ron/ai/scheduler.py:34-55 | every interleaving keeps exclusion, order, numbering and wakeups |
| InferenceScheduling.MutualExclusion | ron/ai/scheduler.py:34-55 | at most one operation is in progress, and the flag says whether one is |
| InferenceScheduling.AdmissionOrder | ron/ai/scheduler.py:38-48 | a ticket is overtaken only by strictly higher priority |
| InferenceScheduling.AdmitsTheMostUrgent | ron/ai/scheduler.py:37-40 | in every run, when an event admits an operation and another is still waiting, the admitted one has the smaller priority number, or the same and came earlier |
| InferenceScheduling.AdmittedExactly | ron/ai/scheduler.py:35-46 | in every run a thread that arrives or is woken is admitted if and only if nothing is in progress and whoever else waits has a larger priority number, or the same and came later; otherwise it waits |
| InferenceScheduling.TicketsAreRequests | ron/ai/scheduler.py:37-37 | every request is waiting or was admitted, under its own priority and its place in the order of arrival, and nobody else is |
| InferenceScheduling.WaitersSleep | ron/ai/scheduler.py:38-39 | a thread that has to wait looks at the gate again only after some operation has ended |
| InferenceScheduling.IdleGateProgresses | ron/ai/scheduler.py:41-55 | an idle gate with waiters has a thread awake that will be admitted, the most urgent and among equals the earliest: no wakeup is lost |
| InferenceScheduling.RunGate | ron/ai/scheduler.py:34-55 | every run of the machine is a run of the object, so what is proved of all runs holds of the object |
| InferenceScheduling.InferenceScheduler.Enter | ron/ai/scheduler.py:35-46 | the ticket is a new one, and is admitted at once exactly if no operation is in progress and every waiter has a larger priority number |
| InferenceScheduling.InferenceScheduler.WakeUp | ron/ai/scheduler.py:38-41 | a woken thread is admitted exactly if no operation is in progress and every other waiter is less urgent, or as urgent and later |
| InferenceScheduling.InferenceScheduler.Exit | ron/ai/scheduler.py:49-55 | from any state a run can reach: nothing is in progress any more, every waiter is awake, and the one of the smallest priority number and among equals the earliest will be the one admitted |
| AudioStream.ResampleInBlocks | ron/voice/audio.py:105-158 | for every pair of rates and every cut into blocks the outputs are the one-shot resampling, floor((N-1)*target/source)+1 of them |
| AudioStream.OutputsInNumbers | ron/voice/audio.py:125-158 | output k stands k*source/target samples into the input, and is the sample there, or lies between its two neighbours as far from the left one as the remainder says |
| AudioStream.StreamingLinearResampler.Process | ron/voice/audio.py:125-158 | after every block the outputs so far are those of resampling the inputs so far in one go |
| AudioStream.InputReaches | ron/voice/audio.py:136-150 | exactly the positions before that count lie inside the input |
| AudioStream.EqualRatesAreIdentity | ron/voice/audio.py:131-135 | equal rates give the input back |
| AudioStream.ResampledGrows | ron/voice/audio.py:125-158 | what an input has yielded stays when the input grows |
| AudioStream.StreamingLinearResampler.SampleAt | ron/voice/audio.py:141-148 | the sample before a block is always the remembered one: the guard against a lost seam never fires |
| AudioStream.SampleRingBuffer.Append | ron/voice/audio.py:44-63 | the buffer holds the last samples appended since the last clear, and counts them |
| AudioStream.SampleRingBuffer.DropExcess | ron/voice/audio.py:56-63 | trimming whole chunks and the front of one keeps exactly the last samples |
| AudioStream.SampleRingBuffer.Snapshot | ron/voice/audio.py:65-71 | a snapshot is that suffix, or its last m samples for a positive limit m |
| AudioStream.LastIsTheEnd | ron/voice/audio.py:56-71 | the last n samples are all if there are no more, and else n of them, the same counted from the end |
| JsonFraming.FramingRoundTrip | ron/network/protocol.py:21-74 | any encodable messages, in any reads, come out as they went in, in order, with no error and an empty buffer |
| JsonFraming.CutsDoNotMatter | ron/network/protocol.py:44-74 | on a stream without bad lines the decoder does not depend on the reads |
| JsonCuts.CutsDoNotMatterExactly | ron/network/protocol.py:44-74 | from any buffer left without an error, every cut into reads gives what one read gives if and only if the stream is clean, never ends a line, holds nothing but one malformed line at its very end, or is the newline of a line already too long |
| JsonCuts.ReadErrsExactly | ron/network/protocol.py:44-74 | for every buffer and read: an error exactly if the buffer is then overlong without a newline or holds a bad line; the first bad line decides which, the messages before it are lost, and exactly what follows it stays in the buffer |
| JsonCuts.LostWithTheirRead | ron/network/protocol.py:44-74 | the messages a bad line takes with it would have been delivered had the read ended before it |
| JsonCuts.CutInLongLine | ron/network/protocol.py:48-66 | a line too long, with nothing before it that decodes, is oversized in one read and unterminated in another cut of the same bytes |
| JsonCuts.ReadLeavesUnfinished | ron/network/protocol.py:44-74 | a read without an error leaves no newline in the buffer |
| JsonFraming.DecodeInTwoGoes | ron/network/protocol.py:44-74 | decoding a stream in two goes gives what decoding it at once gives |
| JsonFraming.EncodingsAreClean | ron/network/protocol.py:21-36 | encodings never hold a bad line and decode to their messages |
| JsonFraming.EncodedExactly | ron/network/protocol.py:21-36 | a message is refused exactly if the codec refuses it or its payload has more than 8192 bytes; otherwise it is the payload and one newline at the end |
| JsonFraming.JsonLineDecoder.Feed | ron/network/protocol.py:44-74 | the loop over the buffer returns and leaves what the specification of one read says |

## Left out

- Files, SQLite, hashing and fsync are maps whose operations can fail: a digest is equal only for equal contents, an atomic write leaves one whole file or, when it fails, anything at its own path.
- StorageRuns.Run: nobody but the manager writes to a drive, and paths are the same only if they are spelled the same; on Windows a save under `.RON-STORAGE.JSON` is one under the identity file's name. A query of the queue's database does not fail; its changes may.
- The order in which a synchronisation takes rows and tombstones is arbitrary here; the program takes them in the order they were queued.
- StorageManagement.StorageManager.SaveBytes: storage calls are sequential; a monitor thread that refreshes while a save is under way is not modelled, because the save reads state and cancels tombstones outside the queue lock.
- StorageManagement.StorageManager.RefreshOnce: a drive stays behind its verified root until the next refresh. A corrupt binding file and directories in the way of a path are not modelled, nor is `_normalise_relative_path`.
- WavStream.StreamWav: samples are exact fractions of full scale; rounding to single precision is not modelled, and a read returns nothing only at the end of the response. What was heard before a stop is a beginning of the audio; how much of it is not said.
- SpeechText.PrepareFits: the regular expressions that clean a text are one arbitrary function, with one more for whether it held a code block.
- SpeechHeard.PlainTokensAreHeard: a cleaning that drops or adds letters, as the program's does with markup, links and paths, is not compared with the reply; each text is then said as that cleaning leaves it (`FittingTextIsSaid`).
- SpeechSession.SpeakReply: the queue to the player, which may drop texts when the service stops, and the player itself are not part of this model. The buffer limit is twice the spoken limit, and at least 1000 characters.
- `prepare_chunks` and `_split_long_chunk`, the local voice's counterpart of the cloud chunks, and `_decode_wav`, the non-streaming parser over Python's wave module.
- WakeListener.VoiceListener.Listen: what detector, endpointing, recogniser, normaliser and clock give in a round is an argument; the captured audio, notices and the face are left out.
- TurnHandoff.RunKeepsInvariant: starting the service again after a stop is not modelled.
- TurnHandoff.ActiveExactlyWhileInFlight: starting a thread is taken to succeed; if `thread.start()` raised, the flag set before it would stay set.
- TaskSaga.TaskRecord.CompensateCompleted: what the user and the reminder clock do to documents and reminders happens between steps or before the rollback; a compensator looks at its own item once, so later changes come to the same as changes before or after the rollback. Nobody but the task moves volume and brightness while it runs.
- TaskRollback.WorldIsBackExactly: a document that is gone and one that never was are the same, and so are a reminder that was called off and none; the row of a reminder called off stays in its database.
- TaskSaga.TaskRecord.Execute: tools without a compensator (opening, searching, playing) are one step that touches none of the four parts.
- TaskRuns.RunKeepsInvariant: journal saves succeed, no journal row is malformed, and a waiting task that is answered is a new task.
- TaskManager.AgentTaskManager.EndStep: listeners, notifications and messages are left out; the compensation itself is in `task_saga.dfy`.
- Confirmation.AgentService.Converse: routing, planning and wording of prompts are given as a reading of the prompt, and so is what registry and queue answer; task and reminder controls read the pending question and change none.
- InferenceScheduling.RunKeepsInvariant: the heap is the set of its tickets with their order; operations that never return are not modelled.
- AudioStream.ResampleInBlocks: positions are exact; the program accumulates them in floating point behind an epsilon that exact arithmetic never needs.
- AudioStream.SampleRingBuffer.Snapshot: a limit of 0 is excluded, where Python's slice returns everything.
- JsonFraming.FramingRoundTrip: the JSON codec is a parameter whose encodings hold no raw newline and whose decoding inverts its encoding.
- `ConversationHistory` of ron/chat.py, discovery datagrams, settings, health reports, HTTP clients, OAuth, the tablet, device and model code, and everything that is user interface.

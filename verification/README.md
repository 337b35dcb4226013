# Omnix Voice: a verification model

Omnix Voice is a telephony SDK: a C facade (`cpp/src`) over the Baresip SIP stack, with Android,
iOS and React Native layers on top. This project models the facade's protocol logic, the text
transformers around it, the Android audio session and the TypeScript operation queue in Dafny 4.11,
and proves what every run of them keeps. `dafny verify dfyconfig.toml` checks all of it.

## How the model is built

- **Calls** (`CallModel`, `CallEngine`, `CallRuns`, `CallShape`, `CallTheorems`, `CallOutcomes`, `CallReports`,
  `RegistryMap`).
  `CallEngine.Engine` is the registry in its own form: an array of eight slots that each operation
  changes in place. Every method is proved equal to a function of `CallModel`, and the properties are
  proved about those functions over every interleaving of application calls and stack events. The SIP
  stack is the environment: whether `call_hangup` fires CLOSED before it returns, whether a hold
  request takes effect, which error a connect gives, which code `call_scode` answers, are arguments that
  range over everything. A call of the stack carries the number of times it was released and the number
  of slots freed for it, and every operation that reads a call requires it to be still live, so that no
  run reads a freed call.
- **Queue and registration** (`EventModel`, `EventLoop`, `EventOutcomes`, `FacadeRuns`, `FacadeTheorems`,
  `StatusText`).
  `EventLoop.Events` has the fields of the engine state that the producers and the consumer share.
  `FacadeRuns` puts it together with the registry: one application thread, the stack, and the consumer
  of the queue take steps in any order.
- **Text** (`Redaction`, `Scrub`, `ScrubNames`, `ScrubSecret`, `CodecFilter`, `CodecLayers`, `Address`,
  `ConfigOutcomes`, `StatusText`).
  Each loop or buffer form is proved against a function on sequences, and the properties are proved of
  that function.
- **Android audio** (`AudioModel`, `AudioSession`, `AudioTheorems`), `HostAudio`, which joins it to the C
  facade through the queue, and the **TypeScript queue**
  (`OperationQueue`, `VoiceClient`). The queue is modelled down to promises, their reactions and the
  microtask queue, so that order and progress follow from what `then` does.

What a single operation answers and leaves behind is stated once more apart from the functions that compute
it, field by field and with its literals: `CallOutcomes` for the call operations, `EventOutcomes` for the
messages to the host, `ScrubNames` for the credential pattern, `ConfigOutcomes` for addresses and codecs.

What is assumed of the environment: a call's identifier does not change; a new call is not on hold, and
only a hold or resume request changes that flag; CLOSED comes at most once per call; INCOMING and
OUTGOING are not fired again for a call already past them (`RefireBreaksOrder` shows why that is needed);
a released call's identity is not used for another call. Each critical section under the `re` lock is one
step, API calls are made one at a time and not from inside a callback, and allocations and pushes succeed.
On Android a call event only arrives while the native core is initialized, and other applications change
the audio mode, but not the speakerphone, during a session.

## Where the code differs from what it says, or from what one would expect

- An UNREGISTERING event sets `unregister_pending`, and `omnix_reg_apply` clears it at once, so
  unregistering does not stick (`UnregisterDoesNotStick`); what a REGISTER_OK does mean is
  `RegisterOkMeans`.
- `omnix_call_make` reads the registration state before it takes the lock, so a registration can fail
  between the check and OUTGOING (`MakeCanRaceFailure`, and `OutgoingFollowsRegistered` with
  `StillRegistered` for when it does not); the host has still heard REGISTERED before
  (`RegisteredBeforeOutgoing`).
- RINGING, PROGRESS, ANSWERED and ESTABLISHED do not touch the slot: it becomes CONNECTED only through an
  answer's refresh or a resume.
- Call-IDs of 128 characters or more are cut, and what is left can be another call's identifier;
  `RegistryIsMap` gives the exact condition, `CollisionHidesOne` what follows.
- Codec names of 64 characters or more are split, and the pieces can overflow a buffer that the text
  itself fits; `OverflowsExactly` says for which texts.
- A bare host called `sip` or `sips` with a port and no scheme loses its name (`PortForHost`), and a scheme
  that is not in lower case is taken for the host (`SchemeForHost`).
- A display name is put between quotes as it is, so that a quote or a backslash in it can change what the
  address says; `AddressReadsBack` gives the exact condition for a reader of quoted strings.
- A registry reset leaves handlers behind that name slots by position. A call that comes in before the loop
  stops can be given such a slot (`ResetCanAlias`; `HandlersAfterReset` says when). An event for the earlier
  call still leaves that slot alone (`HandlersDoNotAlias`).
- A secret can still be read in a redacted text if it can be read in the mark, or starts with an end of the
  mark, or ends with a start of the mark that it does not start with, or has the mark inside
  (`HidesExactly`: exactly then).
- Scrubbing in two layers is stable only if both regular expression engines have the same class of white
  space (`SharedClassNeeded`).

## Model

| member | source | states |
|---|---|---|
| CallTheorems.ReleasedOnce | cpp/src/omnix_call.c:426-446 | In every run a call with the Omnix handler is released at most once; until teardown it is either live and in exactly one slot, or released with exactly one slot freed and, without shutdown, its order of notes complete |
| CallTheorems.ClosingReleases | cpp/src/omnix_call.c:507-512 | A close from either side, re-entrant, later or absent, releases exactly that call and leaves every other call as it was |
| CallRuns.HangUpEnds | cpp/src/omnix_call.c:739-779 | A hangup has one outcome whether or not CLOSED fires inside it: own slot freed, one release, ENDING then one terminal note with the current mute flag, FAILED exactly for a non-zero stack code or a text code of 300 to 699 |
| CallRuns.RejectEnds | cpp/src/omnix_call.c:701-737 | The same for a reject: one terminal note, FAILED if the stack stays silent |
| CallRuns.RemoteCloseEnds | cpp/src/omnix_call.c:406-446 | A CLOSED event of its own has the same outcome: FAILED exactly for a non-zero stack code or a text code of 300 to 699, ENDED otherwise |
| CallRuns.StepInv | cpp/src/omnix_call.c:98-192 | Every step of application or stack keeps the registry invariant: slots and handlers point at each other, identity, hold and release counts agree with the stack, each call's notes are where they should be in their order |
| CallTheorems.RunInv | cpp/src/omnix_call.c:453-543 | Every reachable state satisfies that invariant |
| CallTheorems.HandlersDoNotAlias | cpp/src/omnix_call.c:453-543 | Until teardown a live call's handler points at the slot that holds that call; an event for one call changes no slot, call or note of another, in teardown too |
| CallTheorems.HandlersAfterReset | cpp/src/omnix_call.c:98-101 | After a registry reset, in every run, an earlier call is in no slot, and the slot its handler names is empty exactly as long as no later call lives that was given the same slot |
| CallTheorems.ResetCanAlias | cpp/src/omnix_voice.c:364-368 | From every run with a call in the first slot, a call that comes in behind the reset of a shutdown is put into that slot, which the earlier call's handler still names |
| CallTheorems.HoldIsCoherent | cpp/src/omnix_call.c:781-886 | In every reachable state a slot's hold flag is the stack's, its state is HELD exactly then, and it is not left in ENDING |
| CallTheorems.ConnectedComesFrom | cpp/src/omnix_call.c:479-505 | In every run a slot becomes CONNECTED only by answering or resuming its own call, never by an event of the stack |
| CallTheorems.MuteIsKept | cpp/src/omnix_call.c:888-922 | A slot's mute flag is the last value set for its call since it was allocated, over every mix of refreshes |
| CallTheorems.NotesCarryMute | cpp/src/omnix_call.c:440-442 | Every notification, the terminal one included, carries the mute value current when it was queued |
| CallTheorems.NotesKeepOrder | cpp/src/omnix_events.c:400-428 | Every call's notifications follow the grammar: OUTGOING or INCOMING, then HELD and CONNECTED alternating from HELD, then an optional ENDING and one ENDED or FAILED, then nothing; complete for a finished call, a prefix after shutdown |
| CallTheorems.RefireBreaksOrder | cpp/src/omnix_call.c:466-472 | Why OUTGOING and INCOMING must not be fired again: for any live call in any state of any run its notes would then break the order, exactly unless notes are suppressed |
| CallOutcomes.HoldTakes | cpp/src/omnix_call.c:781-886 | A hold of a CONNECTED call, or a resume of a HELD one, that the stack takes answers OK, sets the stack's flag, the slot's state and flag, keeps mute, queues exactly one such note unless shutting down, and changes nothing else |
| CallOutcomes.HoldFails | cpp/src/omnix_call.c:830-834 | One that the stack does not take changes nothing; the error is INVALID_STATE exactly for EINVAL and CALL_FAILED otherwise |
| CallOutcomes.HoldRefused | cpp/src/omnix_call.c:797-811 | In any other slot state, and for an unknown identifier, both are refused and change nothing |
| CallOutcomes.AnswerTakes | cpp/src/omnix_call.c:690-699 | A successful answer refreshes the slot from the stack, CONNECTED for an established call and each other state by name, HELD on hold; mute, identifier, notes and all other slots stay |
| CallOutcomes.AnswerFails | cpp/src/omnix_call.c:685-695 | An answer that fails leaves slots and notes alone; INVALID_STATE exactly for EINVAL and EAGAIN, CALL_FAILED otherwise |
| CallOutcomes.MuteTakes | cpp/src/omnix_call.c:888-922 | Setting mute changes that one flag of that one slot and tells nobody |
| CallOutcomes.UnknownIsRefused | cpp/src/omnix_call.c:666-922 | Every operation refuses an identifier that no slot has and changes nothing |
| CallOutcomes.IncomingIs | cpp/src/omnix_call.c:549-570 | An incoming call with an identifier that no slot has goes to the lowest free slot, unmuted, with its handler pointing there, and is told as INCOMING and not outgoing; any other is hung up and holds no slot |
| CallOutcomes.OutgoingIs | cpp/src/omnix_call.c:640-664 | The same for a call that the application makes, told as OUTGOING; the answers are OK and CALL_BUSY |
| CallOutcomes.OutgoingWithoutId | cpp/src/omnix_call.c:572-637 | A call that the stack gave no identifier is released, and the connect error reported code by code, EPROTO if there was none |
| CallOutcomes.AllocRefreshes | cpp/src/omnix_call.c:135-150 | Allocating for a call that has a slot gives that slot, refreshed from the stack and with its mute flag |
| CallOutcomes.UnslottedClose | cpp/src/omnix_call.c:507-512 | CLOSED for a call that no slot holds releases it, and nobody hears of it |
| CallReports.HostHearsTheCall | cpp/src/omnix_call.c:75-96 | In every run whatever a slot or a note says of a call, its identifier and the address and name of the other side are those of that call in the stack, cut to 127, 255 and 127 characters; only an outgoing call is called outgoing |
| CallReports.HostHearsWhoCalled | cpp/src/omnix_call.c:549-664 | When the stack's flag says which side made each new call, every slot and every note goes back to the step that brought its call: same names, and outgoing exactly when the application made it |
| CallShape.ShapeIsGrammar | cpp/src/omnix_call.c:549-570 | The automaton used in the invariant accepts exactly the sequences of that grammar |
| CallShape.PrefixIsShaped | cpp/src/omnix_events.c:229-276 | Any prefix of a well-ordered history of notes is well-ordered |
| RegistryMap.RegistryIsMap | cpp/src/omnix_call.c:103-192 | Over every run identifiers stay apart exactly as long as no new identifier of 128 characters or more collides, a condition on the map alone; and then the slot array is the map, of at most eight entries, and the count its size |
| RegistryMap.ShortIsClear | cpp/src/omnix_call.c:165 | No run collides whose identifiers all have at most 127 characters |
| RegistryMap.LookupsAreMap | cpp/src/omnix_call.c:103-133 | In every such run occupied slots have pairwise distinct calls and identifiers, and both linear searches are lookups in the map, by identifier and by call |
| RegistryMap.StepRefines | cpp/src/omnix_call.c:135-179 | Each step keeps identifiers apart exactly if it does not collide, and then does to the slot array what the map machine does to the map |
| RegistryMap.AllocInserts | cpp/src/omnix_call.c:135-171 | A new call is refused exactly when its identifier is empty, or fits and is taken, or the map is full |
| RegistryMap.LookupIsMap | cpp/src/omnix_call.c:103-118 | The linear search by identifier is map lookup |
| RegistryMap.PtrLookupIsMap | cpp/src/omnix_call.c:120-133 | The linear search by call is lookup by value, and finds the slot that the identifier of that value finds |
| RegistryMap.CollisionHidesOne | cpp/src/omnix_call.c:156-166 | After a collision, in whatever run, two slots have the same identifier and a lookup finds the first of them only |
| CallEngine.Engine.constructor | cpp/src/omnix_call.c:24 | The registry starts with eight empty slots |
| CallEngine.Engine.FindById | cpp/src/omnix_call.c:103-118 | The search loop returns the first slot with that identifier, none for an empty one |
| CallEngine.Engine.FindByPtr | cpp/src/omnix_call.c:120-133 | The search loop returns the first slot with that call |
| CallEngine.Engine.Count | cpp/src/omnix_call.c:181-192 | The loop counts the occupied slots |
| CallEngine.Engine.CallState | cpp/src/omnix_call.c:1058-1067 | The state of the slot with that identifier, IDLE if there is none |
| CallEngine.Engine.Alloc | cpp/src/omnix_call.c:135-171 | Refreshes the slot of a known call or fills the first free one, and nothing else |
| CallEngine.Engine.ClosedSipCode | cpp/src/omnix_call.c:406-420 | The stack's code, else a code of 300 to 699 that the text starts with, else none |
| CallEngine.Engine.FinalizeClosed | cpp/src/omnix_call.c:426-446 | The whole new state after a call is finished: the terminal state from code and text, note, freed slot, release |
| CallEngine.Engine.OnClosed | cpp/src/omnix_call.c:507-512 | The whole new state after CLOSED, for both kinds of handler |
| CallEngine.Engine.StackHangUp | cpp/src/omnix_call.c:771-772 | call_hangup with or without a CLOSED callback before it returns |
| CallEngine.Engine.HandleIncoming | cpp/src/omnix_call.c:549-570 | An incoming call is adopted into a slot and announced, or hung up with its own handler when there is none |
| CallEngine.Engine.Make | cpp/src/omnix_call.c:588-664 | An outgoing call is adopted, or the connect error is mapped and the call released |
| CallEngine.Engine.Answer | cpp/src/omnix_call.c:666-699 | An answered call's slot is refreshed from the stack; errors leave it alone |
| CallEngine.Engine.Reject | cpp/src/omnix_call.c:701-737 | The whole new state after a reject |
| CallEngine.Engine.HangUp | cpp/src/omnix_call.c:739-779 | The whole new state after a hangup |
| CallEngine.Engine.Toggle | cpp/src/omnix_call.c:807-828 | A hold or resume that the stack takes changes slot, flag and notes; one that fails changes nothing |
| CallEngine.Engine.Hold | cpp/src/omnix_call.c:781-835 | Hold is refused unless the call is CONNECTED, and otherwise does what the stack's flag says (`CallOutcomes.HoldTakes`, `CallOutcomes.HoldFails`) |
| CallEngine.Engine.Resume | cpp/src/omnix_call.c:837-886 | Resume is refused unless the call is HELD, and otherwise does what the stack's flag says |
| CallEngine.Engine.SetMute | cpp/src/omnix_call.c:888-922 | Only the mute flag of that call's slot changes |
| CallEngine.Engine.RegistryReset | cpp/src/omnix_call.c:98-101 | All slots become empty at once; calls and handlers stay |
| EventLoop.Events.PushReg | cpp/src/omnix_events.c:85-113 | One registration message with the reason cut to its buffer goes to the end of the queue |
| EventLoop.Events.RegApply | cpp/src/omnix_events.c:119-144 | The state is set and the flag cleared first; a message follows unless shutting down |
| EventLoop.Events.OnRegEvent | cpp/src/omnix_events.c:146-219 | The whole new state after a registration event, events of another user agent ignored |
| EventLoop.Events.NotifyRegistering | cpp/src/omnix_events.c:365-378 | REGISTERING is set and queued before the request is sent |
| EventLoop.Events.NotifyRejected | cpp/src/omnix_events.c:380-398 | FAILED is set and queued when the request is refused |
| EventLoop.Events.NotifyCall | cpp/src/omnix_events.c:400-428 | One call message goes to the end of the queue, none while shutting down |
| EventLoop.Events.MarkUnregister | cpp/src/omnix_voice.c:412-423 | omnix_unregister sets the flag before it sends |
| EventLoop.Events.MarkShuttingDown | cpp/src/omnix_voice.c:364 | The first thing a shutdown does |
| EventLoop.Events.RequestStop | cpp/src/omnix_events.c:350-363 | The user agent is dropped and SHUTDOWN goes to the end of the queue |
| EventLoop.Events.HandleOne | cpp/src/omnix_events.c:221-281 | The oldest message is handled and freed; SHUTDOWN cancels the loop |
| EventOutcomes.FailTells | cpp/src/omnix_events.c:193-196 | REGISTER_FAIL sets FAILED and queues one message with the code and reason in its text, "register failed" exactly if the reason is empty; nothing is queued while shutting down |
| EventOutcomes.OkTells | cpp/src/omnix_events.c:176-191 | REGISTER_OK does the same with "OK", UNREGISTERED while an unregister is pending and REGISTERED otherwise |
| EventOutcomes.ProgressTells | cpp/src/omnix_events.c:170-206 | REGISTERING is told exactly if the engine is not REGISTERING yet, UNREGISTERING always, both with code 0 and no reason |
| EventOutcomes.ForeignIsIgnored | cpp/src/omnix_events.c:161-164 | An event of another user agent changes nothing |
| EventOutcomes.NotifyTells | cpp/src/omnix_events.c:365-428 | The messages of the application's own calls: REGISTERING, FAILED with "register rejected", and one copy of a call note |
| EventOutcomes.CarriesIs | cpp/src/omnix_events.c:39-83 | What the text of an event carries: number 1..999 and the rest of a status line behind all white space, cut to 159; 999 and the text without such a number; 0 and nothing without text |
| EventOutcomes.ThreeDigits | cpp/src/omnix_events.c:56-74 | The numbers of SIP responses are their three digits |
| EventOutcomes.DeliverIs | cpp/src/omnix_events.c:221-281 | The oldest message is handed over, SHUTDOWN cancels the loop, and a stop is queued last |
| FacadeTheorems.RunInv | cpp/src/omnix_events.c:119-144 | Every reachable state of facade, queue and application thread satisfies the joint invariant |
| FacadeTheorems.QueueIsConserved | cpp/src/omnix_events.c:229-276 | Messages are delivered and freed exactly once, in push order; when the loop is cancelled the queue is empty and every message ever allocated was delivered |
| FacadeTheorems.ShutdownIsQuiet | cpp/src/omnix_events.c:137-143 | Once shutting down, nothing but one SHUTDOWN is ever pushed, and nothing after it |
| FacadeTheorems.HostViewAgrees | cpp/src/omnix_events.c:365-394 | Until shutdown the last registration message, delivered or queued, holds the engine's state; a host that drained the queue holds it |
| FacadeTheorems.HostHearsInOrder | cpp/src/omnix_events.c:261-276 | At every moment of every run what the host has heard about a call keeps the grammar |
| FacadeTheorems.RegisteredBeforeOutgoing | cpp/src/omnix_call.c:588-664 | The host hears REGISTERED before it hears OUTGOING for any call |
| FacadeTheorems.PendingIsHistory | cpp/src/omnix_events.c:128-135 | The flag is set exactly when omnix_unregister was called and no registration state has been applied since |
| FacadeTheorems.RegisterOkMeans | cpp/src/omnix_events.c:170-206 | REGISTER_OK is reported as UNREGISTERED exactly in that history, and as REGISTERED otherwise |
| FacadeTheorems.UnregisterDoesNotStick | cpp/src/omnix_events.c:198-206 | From every state at rest, UNREGISTERING between the request and its REGISTER_OK makes the engine REGISTERED |
| FacadeTheorems.OutgoingFollowsRegistered | cpp/src/omnix_call.c:610-660 | In every run, when a make queues its note the last registration message says REGISTERED exactly if the engine is registered at that moment |
| FacadeTheorems.StillRegistered | cpp/src/omnix_call.c:610-614 | And that is so exactly when no registration message was pushed since the check, or the last one says REGISTERED |
| FacadeTheorems.MakeWasChecked | cpp/src/omnix_call.c:610-614 | A make that is under way passed its check at an earlier step, and has been under way since |
| FacadeTheorems.MakeCanRaceFailure | cpp/src/omnix_call.c:610-660 | From every run that has just passed the check, a failing registration can come first and OUTGOING is still queued |
| StatusText.ParseRegText | cpp/src/omnix_events.c:39-83 | The moving-pointer parser computes code and reason as the function on texts does |
| StatusText.StatusLine | cpp/src/omnix_events.c:56-82 | For every number and reason: a code 1..999 comes back, with the reason without leading white space cut to 159; any other number is 999 and the whole text |
| StatusText.NoNumber | cpp/src/omnix_events.c:76-82 | A text that starts with no number is 999 and the text itself, cut to 159 |
| StatusText.StatusRoundTrip | cpp/src/omnix_events.c:56-74 | The reason itself, cut to 159, comes back exactly when it does not start with white space |
| StatusText.CodeRange | cpp/src/omnix_events.c:46-82 | For any text the code is at most 999, and 0 exactly for the empty text |
| Redaction.RedactTo | cpp/src/omnix_log.c:28-69 | For every message, secret and buffer size the buffer holds the redacted message cut to its size, and a terminator, and no byte behind it changes |
| Redaction.Scan | cpp/src/omnix_log.c:44-67 | The copying loop writes as much of the redacted message as fits |
| Redaction.RedactedIs | cpp/src/omnix_log.c:44-67 | The line up to the first occurrence of the secret stays, [REDACTED] stands for it and the rest is redacted on its own; without an occurrence, or with an empty secret, nothing changes |
| Redaction.ReplaceIsSplitJoin | react-native/src/errors.ts:79-81 | Left-to-right replacement is splitting at the secret and joining with the mark |
| Redaction.SplitJoins | react-native/src/errors.ts:79-81 | The pieces joined with the secret give the message back |
| Redaction.PiecesAreClean | cpp/src/omnix_log.c:49-57 | No piece between two replacements has the secret in it |
| Redaction.HidesExactly | cpp/src/omnix_log.c:28-69 | Over all messages and buffer sizes a secret is hidden exactly if it cannot be read in the mark or across one of its edges |
| Redaction.LeakFor | cpp/src/omnix_log.c:44-67 | For every other secret there is a message whose redaction shows it |
| Redaction.LeaksExactly | cpp/src/omnix_log.c:28-69 | Message by message, a secret that cannot be read across an edge is in the redacted message exactly when the message had it and the mark shows it |
| Redaction.NeverLeaks | cpp/src/omnix_log.c:28-69 | For a hidden secret no buffer content, however cut, has the secret in it |
| Redaction.DisjointSecretNeverLeaks | cpp/src/omnix_log.c:28-69 | So for any secret that shares no character with the mark |
| Redaction.SharedEdgeCanHide | cpp/src/omnix_log.c:52-55 | Sharing an edge with the mark is not enough to be read: a secret that starts and ends with the same one stays hidden |
| CodecFilter.ApplyCodecs | cpp/src/omnix_account.c:134-214 | The nested loops compute the comma-join of the registered tokens in order, fail exactly in the stated cases, and warn exactly when a token was skipped |
| CodecFilter.NextToken | cpp/src/omnix_account.c:148-163 | The scanner takes the next token, at most 63 characters of it |
| CodecFilter.TokensOfJoin | cpp/src/omnix_account.c:148-163 | Scanning the comma-join of tokens gives those tokens back |
| CodecFilter.FilterIsIdempotent | cpp/src/omnix_account.c:118-221 | A successful result, filtered again with the same table, comes back unchanged and nothing is skipped |
| CodecFilter.ShortRunsNeverOverflow | cpp/src/omnix_account.c:183-200 | With runs of at most 63 characters the filter fails only for an over-long text or no registered codec, and its output is no longer than its input |
| CodecFilter.OverflowsExactly | cpp/src/omnix_account.c:194-205 | A configuration can overflow the buffer, with some table that registers a token of it, exactly when its separator-free runs take 256 characters once split and joined |
| CodecFilter.JoinedLengthIs | cpp/src/omnix_account.c:158-162 | That length follows from the lengths of the runs: each run, a comma for each split in it, a comma between runs |
| ConfigOutcomes.TokensAre | cpp/src/omnix_account.c:148-180 | How the tokenizer reads: blanks, tabs and commas are dropped, and a word ends at one of them or after 63 characters |
| ConfigOutcomes.KeptAre | cpp/src/omnix_account.c:183-205 | A list keeps its registered tokens in order, joined with commas |
| ConfigOutcomes.FilteredIs | cpp/src/omnix_account.c:118-146 | The account is given the kept tokens of its text or of "opus,pcmu,pcma"; it is an error exactly for 256 characters or more on either side and for no kept token |
| ConfigOutcomes.CommasAre | cpp/src/omnix_account.c:158-162 | A run without separators is cut after every 63 characters |
| CodecLayers.NormalizeCodecs | react-native/src/OmnixVoice.ts:37-52 | The loop computes the list without unknown names and repetitions; an empty result is an error |
| CodecLayers.NormalizedMeans | react-native/src/OmnixVoice.ts:37-52 | Normalizing keeps exactly the supported codecs, once each, in the order they first appear |
| CodecLayers.SplitOfJoin | react-native/android/src/main/java/com/omnix/voice/rn/OmnixVoiceModule.kt:315-324 | Splitting a joined codec list at commas gives it back |
| CodecLayers.JoinOfSplit | react-native/android/src/main/java/com/omnix/voice/rn/OmnixVoiceModule.kt:318-319 | Splitting at commas loses nothing: the pieces have no comma and joined give the text back |
| CodecLayers.ReadCodecsMeans | react-native/android/src/main/java/com/omnix/voice/rn/OmnixVoiceModule.kt:315-324 | Whatever the text, the list read is not empty and has supported names only; without one it is the fallback |
| CodecLayers.EntriesMean | react-native/android/src/main/java/com/omnix/voice/rn/OmnixVoiceModule.kt:319-322 | The entries are the supported names among the trimmed pieces |
| CodecLayers.BridgeKeepsList | android/src/main/java/com/omnix/voice/OmnixVoice.kt:137-140 | The bridge reads the list that was joined, and the SDK joins it to the same text |
| CodecLayers.PreferenceSurvives | react-native/src/OmnixVoice.ts:246 | For every input list the C tokenizer reads the normalized list; the account gets it without the unregistered codecs, in order, and there is none exactly when no supported codec of the input is registered |
| ConfigOutcomes.CodecsAre | react-native/src/OmnixVoice.ts:28-38 | The supported names are opus, pcmu and pcma, and without a preference every layer gives these three in that order |
| ConfigOutcomes.TrimIs | react-native/android/src/main/java/com/omnix/voice/rn/OmnixVoiceModule.kt:319-320 | Trimming takes blanks and tabs off both ends and nothing else |
| Address.SipHostFromServer | cpp/src/omnix_account.c:227-272 | The pointer-moving function fills the buffer with the host and leaves it alone on an error |
| Address.ParseUserDomain | cpp/src/omnix_account.c:278-319 | Both buffers hold the two parts, or the error is the one of the function on texts |
| Address.BuildAor | cpp/src/omnix_account.c:321-362 | The buffer holds the address, or the error says why there is none |
| Address.HostIsExtracted | cpp/src/omnix_account.c:239-267 | For a server written as a scheme sip or sips in any spelling, slashes, a host and a port, all but the host optional: the host, bracketed or not, comes out, or EINVAL if it is too long, in all cases but exactly two: a bare sip or sips with a port, and a scheme not in lower case before a host of another name |
| Address.SchemeForHost | cpp/src/omnix_account.c:240-245 | A scheme not in lower case gives its own name as the host, whatever follows |
| Address.PortForHost | cpp/src/omnix_account.c:240-245 | In that case the port is taken for the host |
| Address.UserDomainRoundTrip | cpp/src/omnix_account.c:294-306 | Of user, at sign and domain both parts come back, or EINVAL exactly when one is empty or too long |
| Address.UserDomainKeeps | cpp/src/omnix_account.c:294-318 | Whatever is accepted, the user has no at sign and nothing of sip_user is lost; without one the domain is the server's host |
| Address.AddressReadsBack | cpp/src/omnix_account.c:335-345 | By the rules for quoted strings (RFC 3261, section 25.1) user and domain can be read back from the address exactly when every quote in the display name is escaped and its last character escapes nothing |
| Address.BackslashAtEnd | cpp/src/omnix_account.c:337-339 | A name that could be read and gets a backslash at its end no longer can: it escapes the closing quote |
| Address.QuoteInName | cpp/src/omnix_account.c:337-339 | A quote that the caller escaped does not matter, one that is not makes the name unreadable |
| Address.StackReadsName | third_party/re/src/fmt/regex.c:147-176 | The name part of the stack's address pattern reaches the end of the printed name exactly for the names that pass it, which all names that read back do |
| Address.AddressFits | cpp/src/omnix_account.c:347-349 | 512 bytes hold every accepted user and domain exactly when there is no display name or one of at most 105 characters |
| Address.AddressIsSound | cpp/src/omnix_account.c:351-359 | An accepted configuration gives an address that fits, contains neither auth_pass nor the password, and reads back exactly if the display name can stand between quotes |
| ConfigOutcomes.AddressIs | cpp/src/omnix_account.c:335-359 | The address in full: quoted name, <sip:, user, domain and ;transport=tls>; ENOMEM exactly from 512 characters on, then EPROTO exactly for auth_pass or the password in it |
| ConfigOutcomes.UserDomainIs | cpp/src/omnix_account.c:278-319 | sip_user with an at sign is 1 to 127 and 1 to 255 characters, without one 1 to 127 and the server's host; EINVAL exactly otherwise |
| ConfigOutcomes.NoHost | cpp/src/omnix_account.c:227-272 | Without a server, or without a host in it, or with a bracket that does not close, there is EINVAL |
| ScrubNames.NamedIsRedacted | react-native/src/errors.ts:82-85 | For every sippassword, auth_pass or password in any case, blanks, ':' or '=', blanks and a value, the value is replaced by [REDACTED] up to the next blank or the end, and the rest is redacted on its own |
| ScrubNames.PlainStays | react-native/src/errors.ts:82-85 | Text in which no such name and sign stand before a value stays as it is, up to the first that does |
| ScrubNames.NothingNamed | react-native/src/errors.ts:82-85 | A text without any comes back unchanged |
| ScrubNames.NamedIsMark | react-native/src/errors.ts:82-85 | No credential survives: in a redacted text whatever stands after such a name and sign, at any position, is [REDACTED] and then a blank or the end |
| ScrubNames.ScrubbedIs | react-native/src/errors.ts:71-90 | No text and the empty text give nothing; any other is redacted and cut to 180 characters |
| Scrub.RedactKeepsTheRest | react-native/src/errors.ts:82-85 | Redaction changes values only: text and redacted text are the same pieces, with the values between them in one and a mark for each in the other |
| Scrub.ValuesAreWords | react-native/src/errors.ts:82-85 | Every value taken out is a whole word, not empty and without white space |
| Scrub.NoNewMatch | react-native/src/errors.ts:82-85 | Redaction makes no match where there was none |
| Scrub.RedactExtendsCut | react-native/src/errors.ts:82-88 | Redacting a redacted text that was cut anywhere gives the cut text back, with at most more behind it |
| Scrub.ScrubbedOnce | react-native/src/events.ts:84 | What the Kotlin bridge scrubbed, the client's parser leaves as it is, for every text and secret and through the 180-character cut, if their engines agree on white space and the client's folds no character to a letter that the bridge's does not |
| Scrub.SharedClassNeeded | react-native/android/src/main/java/com/omnix/voice/rn/OmnixVoiceModule.kt:353-370 | And only then: with two different white space classes some text is scrubbed differently the second time |
| ScrubSecret.SecretIsGone | react-native/src/errors.ts:71-90 | Through all three stages the known secret is not in the result, for every text, unless redaction can show it or a mark behind a name and sign can complete it |
| ScrubSecret.HidesExactly | react-native/src/errors.ts:71-90 | A secret without ':' or '=', of any length, is hidden in every text exactly if it cannot be shown where the 180 characters still have room for it |
| ScrubSecret.FitsMeans | react-native/src/errors.ts:86-88 | Up to 170 characters that is whether redaction hides it, and above 180 it always is hidden |
| ScrubSecret.RedactMakesNone | react-native/src/errors.ts:82-85 | Replacing values puts no such secret into a text that did not have it |
| HostAudio.SessionMatchesRegistry | android/src/main/java/com/omnix/voice/OmnixVoice.kt:59-89 | End to end: in every run without an identifier collision and before a shutdown, a host that drained the queue and gave every call event to the audio session has it up exactly while a slot of the C registry holds a call |
| HostAudio.StepTold | cpp/src/omnix_call.c:426-446 | Every step keeps that the identifiers last heard of as active are those in the registry |
| AudioTheorems.SessionFollowsCalls | android/src/main/java/com/omnix/voice/OmnixVoice.kt:349-375 | In every run the session is up exactly while some call's latest state is active, and then the speakerphone is what was last asked for, before or during the session |
| AudioTheorems.FocusOncePerSession | android/src/main/java/com/omnix/voice/internal/OmnixAudioRouter.kt:51-76 | Focus is requested once for each time a first call became active, and every granted request but a running session's has been abandoned once |
| AudioTheorems.EndRestoresMode | android/src/main/java/com/omnix/voice/internal/OmnixAudioRouter.kt:67-76 | Ending a session, by event or shutdown, restores the mode from just before it started, whoever set it in between |
| AudioTheorems.SessionSetsMode | android/src/main/java/com/omnix/voice/internal/OmnixAudioRouter.kt:51-61 | While a session is up the device is in communication mode (3), unless another application set the mode since it started |
| AudioTheorems.StartRequestsFocus | android/src/main/java/com/omnix/voice/internal/OmnixAudioRouter.kt:51-61 | The event that starts a session asks for the focus, and what a grant leaves is held |
| AudioTheorems.ActiveStates | android/src/main/java/com/omnix/voice/OmnixVoice.kt:361-375 | The seven call states that keep a session up |
| AudioSession.Bridge.AbandonFocus | android/src/main/java/com/omnix/voice/internal/OmnixAudioManagerBridge.kt:70-74 | A kept request is abandoned once |
| AudioSession.Bridge.RequestVoiceCommunicationFocus | android/src/main/java/com/omnix/voice/internal/OmnixAudioManagerBridge.kt:48-68 | An old request is abandoned first, and the new one kept if granted |
| AudioSession.AudioRouter.StartCallAudio | android/src/main/java/com/omnix/voice/internal/OmnixAudioRouter.kt:51-61 | The whole new state of device and router after a start |
| AudioSession.AudioRouter.EndCallAudio | android/src/main/java/com/omnix/voice/internal/OmnixAudioRouter.kt:67-76 | The whole new state of device and router after an end |
| AudioSession.AudioRouter.SetSpeakerEnabled | android/src/main/java/com/omnix/voice/internal/OmnixAudioRouter.kt:82-87 | The preference is kept, and applied during a session |
| AudioSession.OmnixVoice.Initialize | android/src/main/java/com/omnix/voice/OmnixVoice.kt:108-160 | A new router, or no change when refused |
| AudioSession.OmnixVoice.Shutdown | android/src/main/java/com/omnix/voice/OmnixVoice.kt:163-179 | A running session is ended, then router and calls are dropped |
| AudioSession.OmnixVoice.SyncCallAudioSession | android/src/main/java/com/omnix/voice/OmnixVoice.kt:349-359 | Starts or ends the session by whether any call is active |
| AudioSession.OmnixVoice.OnCallEvent | android/src/main/java/com/omnix/voice/OmnixVoice.kt:59-89 | The call's state is recorded and the session follows |
| AudioSession.OmnixVoice.SetSpeakerEnabled | android/src/main/java/com/omnix/voice/OmnixVoice.kt:266-277 | An accepted preference goes to the router |
| OperationQueue.JobsTakeTurns | react-native/src/OmnixVoice.ts:209-216 | Jobs begin once each, in the order of the calls, none before the one before has ended, and each caller's promise settles as its own job did |
| OperationQueue.NeverStalls | react-native/src/OmnixVoice.ts:209-216 | However the jobs before ended, a job that is left runs or begins within two turns of the microtask loop |
| OperationQueue.SessionIsSequential | react-native/src/OmnixVoice.ts:218-286 | Between two jobs the client is in the state that the ended jobs leave one after the other: ready, key and five subscriptions together, or none of them |
| OperationQueue.RunningJobIs | react-native/src/OmnixVoice.ts:218-356 | In every run the job that runs asks the native module exactly when it should: a valid initialize only without a session and with the module there, a shutdown and any other operation only with one; an initialize that asks has its five subscriptions |
| OperationQueue.JobsEndAsTheyShould | react-native/src/OmnixVoice.ts:218-356 | In every run a job that did not ask ended as it should: a second initialize well with the same key and badly with another, a shutdown without a session well, any other operation badly |
| OperationQueue.KeyIsLast | react-native/src/OmnixVoice.ts:264-277 | The client's key is that of the last initialize that went through, unless a shutdown came later |
| VoiceClient.OmnixVoiceClient.AttachEvents | react-native/src/OmnixVoice.ts:368-393 | The loop adds the five subscriptions unless there are some |
| VoiceClient.OmnixVoiceClient.DetachEvents | react-native/src/OmnixVoice.ts:395-400 | All subscriptions go |
| VoiceClient.OmnixVoiceClient.BeginInitialize | react-native/src/OmnixVoice.ts:218-258 | doInitialize up to its await, in all its branches |
| VoiceClient.OmnixVoiceClient.EndInitialize | react-native/src/OmnixVoice.ts:257-268 | doInitialize after the native answer |
| VoiceClient.OmnixVoiceClient.BeginShutdown | react-native/src/OmnixVoice.ts:270-286 | doShutdown, which leaves nothing to do after its await |

## Left out

- Baresip and `re`, which the repository carries under `third_party`, are modelled as the environment, by the assumptions above, and not as code; TLS, SRTP, STUN and media are not modelled.
- The `omnix_init` ladder and ready-wait, log handler registration, password wiping, `omnix_normalize_stun_uri`: I/O or one branch each.
- One engine session is modelled, from init to shutdown; a second `omnix_init` starts from the same initial state.
- JNI, the Objective-C and Swift facades and the TurboModule plumbing: wrappers over foreign calls.
- DTMF checks, the transfer stub, required-field checks and enum ordinal maps: settled by reading one branch. `omnix_test_*` helpers are not modelled.
- Data races inside the C library, allocation failure and failing pushes.
- NULL checks on the text arguments of the call functions, and the events passed on with `bevent_call_emit`.
- CallOutcomes.MuteTakes: does not model the audio direction that the stack is given along with the flag, because media is not modelled.
- Reuse of a freed call's address for a new call while an old message still names it.
- CallEngine.Engine.Make: does not model `ua_call_alloc` failing to create a call (that is `MakeFails` in FacadeRuns) or the copy of the Call-ID into a caller buffer that is too small.
- CallEngine.Engine.ClosedSipCode: takes the number that `sscanf` reads from the start of the CLOSED text, if there is one, as an argument; what it does with signs and with numbers that do not fit is the C library's.
- Address.StackReadsName: covers the first attempt of the stack's pattern, at the start of the address; the pattern starts again behind a place where it fails, and decodes the URI between the brackets, which is not modelled.
- StatusText.ParseRegText: does not clamp `strtol` to a `long`; a number too large for one is outside 1..999 either way.
- CodecFilter.ApplyCodecs: takes the codec table as a predicate on names, case folding of `aucodec_find` included, and keeps `filtered` as a sequence with its 256-byte bound instead of an array.
- Address.BuildAor: the buffer's content after ENOMEM is not described.
- Scrub.ScrubbedOnce: lengths count characters; a surrogate pair that the 180-character cut divides is not modelled. The two engines are described by their white space class and by the characters outside ASCII they fold to letters.
- ScrubSecret.SecretIsGone: for a secret with ':' or '=' in it the condition is sufficient and not exact, since such a secret can itself be part of what the pattern of names changes.
- CodecLayers.BridgeKeepsList: `trim` is modelled for blanks and tabs only; joined codec names have no other white space.
- OperationQueue.JobsTakeTurns: the microtasks that JavaScript inserts when a promise adopts another one are not counted; they add turns between a job's end and the next job's start, not order.
- OperationQueue.SessionIsSequential: listeners, cached call info and the registration state of the client are not part of the session.

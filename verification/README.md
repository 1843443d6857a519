# Linkable: protocol and data models in Dafny

Linkable connects an Android phone to a desktop over the local network. This project models
the parts of both programs whose correctness is hardest to see from the code, and proves what
they keep over every run or every input.

Run `dafny verify dfyconfig.toml` with Dafny 4.11.

## What is modelled

**The desktop session engine.** Threads are modelled by their atomic steps, and a run is any
sequence of enabled steps.

- `OutgoingPump` has the seventeen request queues, the shared counting semaphore, the pump
  threads and the handlers that start and stop them. The promise that a wake-up is never lost
  holds for one server exactly when its queues are empty at the start and no join of a pump
  gives up. A join has a timeout of one second, so it can give up; the old pump then takes the
  permit of a later request, and that run is given. First in, first out and at most once hold
  in every run.
- `SessionEngine` has the connection handlers, the session registry, the trust store and the
  sets behind unpair and disconnect. A connection carries what its peer presented and the
  user typed, and its checks are made on that evidence; deriving the code, hashing the
  transcript and verifying a signature are parameters. Besides exclusivity and provenance the
  module shows that a disconnect request survives until the session it is meant for has
  ended, although closing any session clears the requests for its device.
- `SessionLaws` says what the owner's, the peers' and the users' actions do to the store, the
  blocks, the registry and the sessions: what forgetting a device means for every later run,
  what one refusal means, and what is owed to a peer that does everything right.
- `TransportSequence` and `SessionCipher` have the sequence numbers, counters, nonces, frames
  and the replay guard. `Framing` has the plain frames used before encryption.

**Discovery on the phone.** `NsdDiscovery` is the callback state machine, first as a step
function on values, then as a class whose methods refine it. Late callbacks of dropped
listeners are enabled at any time; one that comes while another listener runs takes the lock
away from it (`ScanIsEquippedExactly`). Wanted discovery can go silent: a start that arrives while
a final stop is outstanding returns at once (NsdDiscoveryManager.kt:128-130), and the deferral
meant for that case (131-135) can never run. `StartIsSafeExactly` says exactly when a start is
safe. A change of network adds a lease for a user scan, since the posted refresh uses the
default argument (NsdDiscoveryManager.kt:51, 100); such a refresh can outlive the last client,
and `StaysOffExactly` and `PostedRefreshRevives` say when. `NsdLaws` accounts for every task field by
field, apart from the step function, and shows that the old results go with a refresh.

**File transfer.** `FileNames` has the search for a free name. `FileReceiving` gives the
receiver on values and as a class. What a message sequence means is defined by `Track`, one
transfer at a time and without any file system; `ReceiverAnswersExactly` says that the
receiver's answers and files are what it calls for. `FileSending` has the two senders, and
`Transfer` joins sender, channel, read loop and receiver. The hash that counts is the one in
the completion message, not the one in the offer. An empty file never gets a temporary file,
so its completion raises and ends the session; the transfer results say so.

Open transfers can get in each other's way: two can share a temporary file, or one can be
saved over the temporary file of another. The receiver's results hold for every message
sequence that leaves no such pair open, and `HoldingsStayRightExactly` shows that nothing less
will do. Ids without a dot and names that do not end in `.part` are enough
(`WellNamedRunsAreClear`). `SavedFiles` says what later messages can do to a saved file: open
transfers of one name share it until something has been saved there, so the second replaces
the first, and an offer can delete a saved file that has the name of its temporary file.

An id with a slash makes no path, so its offer raises and ends the session; an id with a null
character is accepted, and raises at the first chunk or completion.

**Bytes and arithmetic.** `Nv21`, `CameraStream`, `Base32`, `KeyDerivation` and
`SessionSignature` model the loops over buffers with their widths: signed 32-bit shifts,
unsigned 64-bit products and sign extension are written out. Where the phone and the desktop
must agree, the lemma whose name ends in `AgreeExactly` gives the condition: pairing codes
agree up to nineteen digits, and signature payloads while no version number reaches 2^31.

**Clipboard.** `Clipboard` has the order list, the map and the fingerprint set of the
desktop's store, with the accepted history as their meaning.

`Wrappers`, `Bytes`, `Streams`, `Messages` and `Decimals` are shared. A stream's reads return
any positive number of the bytes asked for.

AES-GCM, HMAC, SHA-256, UTF-8 decoding, the protobuf encoding and the clean-up of file names
are parameters. Assumed of them is only what a lemma's `requires` names: decryption undoes
encryption and adds sixteen bytes, parsing undoes serializing, HMAC-SHA-256 gives 32 bytes,
and UTF-8 decoding gives back ASCII text.

## Model

| member | source | states |
|---|---|---|
| OutgoingPump.NoLostWakeUpExactly | desktop/src/linkable_desktop/pairing/pairing_server.py:912-932 | Over all runs with at most n joins that give up, no live pump sleeps without permits on a queued request, if and only if the queues are empty at the start and n is 0 |
| OutgoingPump.NoLostWakeUp | desktop/src/linkable_desktop/app/runtime.py:1318-1324 | The direction a caller relies on: a sleeping live pump, no permit and no producer between put and release mean that all seventeen queues are empty |
| OutgoingPump.StepKeepsCovered | desktop/src/linkable_desktop/pairing/pairing_server.py:629-632 | Every step of a producer, handler or pump, a failed write included, keeps every prefix of the queues covered by permits and by the round under way, after the exit debt of a stopped pump |
| OutgoingPump.TimedOutJoinLosesWakeUp | desktop/src/linkable_desktop/pairing/pairing_server.py:912-915 | A run in which a pump outlives its join and takes the permit of a later request |
| OutgoingPump.QueuedBeforeStartLosesWakeUp | desktop/src/linkable_desktop/app/runtime.py:1321-1324 | Requests queued while there is no server have no permit, so the first session sleeps on them |
| OutgoingPump.FifoAtMostOnce | desktop/src/linkable_desktop/pairing/pairing_server.py:917-1207 | In every run each queue hands out its requests in order, each to one session, and a session writes those of a kind in that order, each at most once, missing at most the last |
| OutgoingPump.StepKeepsConserved | desktop/src/linkable_desktop/app/runtime.py:1421-1425 | Every step keeps: what was put is what was taken followed by what is queued, and what a session sent follows what it took |
| OutgoingPump.RoundServesEveryQueue | desktop/src/linkable_desktop/pairing/pairing_server.py:932-1207 | A waiting pump of a session with a heartbeat and no stop can, with a permit, run one round that spends the permit, takes exactly the head of every queue that has one, writes these behind what the session has sent, and waits again |
| OutgoingPump.NothingBeforeHeartbeat | desktop/src/linkable_desktop/pairing/pairing_server.py:930-932 | In every run a session without a heartbeat has written no request |
| OutgoingPump.StoppedPumpWritesNothing | desktop/src/linkable_desktop/pairing/pairing_server.py:925-932 | In every run a pump that is stopped between two rounds writes nothing more |
| OutgoingPump.StoppedPumpExits | desktop/src/linkable_desktop/pairing/pairing_server.py:925-932 | A stopped pump exits with its next permit, and at once if it has one |
| SessionEngine.ActiveSessionRegistry.Acquire | desktop/src/linkable_desktop/pairing/pairing_server.py:58-65 | Takes a free registry and returns the new token; a held registry is left alone |
| SessionEngine.ActiveSessionRegistry.Release | desktop/src/linkable_desktop/pairing/pairing_server.py:67-72 | Frees the registry only for the token that holds it |
| SessionEngine.SessionsAreExclusive | desktop/src/linkable_desktop/pairing/pairing_server.py:478-538 | In every run at most one handler is between acquire and release, and the registry is free exactly when none is |
| SessionEngine.StepKeepsOneHolder | desktop/src/linkable_desktop/pairing/pairing_server.py:52-72 | Every step keeps: the registry is free and nobody holds it, or one handler holds it with its own device and token |
| SessionEngine.AcksGoToTrustedPairs | desktop/src/linkable_desktop/pairing/pairing_server.py:404-509 | Every SessionAck of every run goes to a device and key that were trusted at lookup; the init was at most the allowed skew before or after the desktop's clock, and its signature verifies, under that key, over the payload of the init label, descriptor, ephemeral key and time |
| SessionEngine.AckedStatementsWereMade | desktop/src/linkable_desktop/pairing/pairing_server.py:458-476 | If signatures under a trusted key verify only for payloads of statements its holder made, every acknowledged init is one of those statements |
| SessionEngine.RecordsComeFromPairings | desktop/src/linkable_desktop/pairing/pairing_server.py:301-394 | Every record added in any run was written by a connection for that device and key whose typed code is the six digits derived from both nonces and both keys, whose transcript hash is that over nonces, ids and code, and whose signature over it verifies under that key |
| SessionEngine.TrustedAfter | desktop/src/linkable_desktop/pairing/pairing_server.py:388-394 | One more store event decides trust in its own device and leaves the others as they were |
| SessionEngine.StepKeepsProvenance | desktop/src/linkable_desktop/pairing/pairing_server.py:404-444 | Every step keeps: the store holds exactly the pairs that its history makes trusted, and every acknowledgement and record has a connection whose evidence bears out the checks it passed |
| SessionEngine.NextEvidenceOk | desktop/src/linkable_desktop/pairing/pairing_server.py:324-377 | A step of a handler passes a check only on evidence that satisfies it, and leaves the evidence of earlier checks alone |
| SessionEngine.UnpairTakesHold | desktop/src/linkable_desktop/app/runtime.py:946-956 | Until the device is allowed back or forgotten, its connections before the reconnect check never pass it and read nothing; one past it reads at most the envelope it is waiting for |
| SessionEngine.DisconnectTakesHold | desktop/src/linkable_desktop/app/runtime.py:928-937 | A disconnect request for the running session's device lasts until that session ends; it reads at most the envelope it is waiting for |
| SessionLaws.RemovalTakesHold | desktop/src/linkable_desktop/app/runtime.py:958-978 | After any run in which a device is forgotten, and until a pairing of it completes: it has no record, and no connection of it is acknowledged that had not been looked up before |
| SessionLaws.StoreChangesExactly | desktop/src/linkable_desktop/app/runtime.py:970 | After any action a device has a record with a key exactly if the action completes its pairing with that key, or it had that record and the action does not remove it |
| SessionLaws.BlocksChangeExactly | desktop/src/linkable_desktop/app/runtime.py:928-956 | After any action a device is blocked, or asked to end its session, exactly if unpairing or disconnecting asks so, or it was before and was neither allowed back nor forgotten nor, for a request, closed |
| SessionLaws.RegistryChangesExactly | desktop/src/linkable_desktop/pairing/pairing_server.py:52-72 | The registry is taken with a valid init that finds it free, freed by the token that holds it, and otherwise left alone |
| SessionLaws.AcksChangeExactly | desktop/src/linkable_desktop/pairing/pairing_server.py:501-509 | An acknowledgement is written for each acquired session whose message gets through, and for nothing else |
| SessionLaws.EnvelopesAreCounted | desktop/src/linkable_desktop/pairing/pairing_server.py:575-584 | A connection has one more envelope exactly when it waits for one and one comes |
| SessionLaws.ConnectMeans | desktop/src/linkable_desktop/pairing/pairing_server.py:404-412 | A new connection holds what its peer presented, goes by the fingerprint and key in it, and leaves the others alone |
| SessionLaws.EvidenceComesFromInputs | desktop/src/linkable_desktop/pairing/pairing_server.py:313-377 | Nonce, typed code, transcript hash, signature and clock reading are those of the step that asks for them; later steps leave them alone |
| SessionLaws.RefusedIsNeverServed | desktop/src/linkable_desktop/pairing/pairing_server.py:303-489 | One refusal, lost message or failed check before a session is acquired: the connection never gets a record or an acknowledgement in any continuation |
| SessionLaws.BrokenSessionLeaves | desktop/src/linkable_desktop/pairing/pairing_server.py:575-584 | A session whose messages fail leaves its loop; one whose wait expires looks for requests and goes on |
| SessionLaws.GoodSessionIsAcknowledged | desktop/src/linkable_desktop/pairing/pairing_server.py:404-509 | A trusted peer that is not blocked and whose init is fresh and signed is acknowledged when the registry is free and its messages get through |
| SessionLaws.GoodPairingIsRecorded | desktop/src/linkable_desktop/pairing/pairing_server.py:301-402 | A peer whose user types the derived code and whose confirmation signs the transcript is recorded with its key |
| SessionLaws.GoodSessionReads | desktop/src/linkable_desktop/pairing/pairing_server.py:575-584 | An acknowledged session that nobody asks to end reads the next envelope |
| SessionLaws.RequestedSessionEnds | desktop/src/linkable_desktop/pairing/pairing_server.py:534-538 | A session asked to end does so at the top of its loop, reads nothing more, frees the registry and clears the request |
| TransportSequence.SequenceNumbers.Next | desktop/src/linkable_desktop/pairing/pairing_server.py:560-565 | Hands out the current number and advances by one |
| TransportSequence.CountersInOrderSequencesDistinct | desktop/src/linkable_desktop/pairing/pairing_server.py:553-573 | However the read loop and the pump interleave drawing and writing, the sequence numbers handed to the stream are at least 100 and pairwise distinct, and frame k has counter k as long as the writes before it succeeded |
| TransportSequence.NumbersAreConsecutive | desktop/src/linkable_desktop/pairing/pairing_server.py:560-565 | In every run a thread that draws after n other draws gets the number 100 + n |
| TransportSequence.ChangesExactly | desktop/src/linkable_desktop/crypto/session_cipher.py:78-86 | What each action does to the numbers, the counter, the frames handed over and the bytes out: only a write that succeeds advances the counter |
| TransportSequence.CountersDistinctExactly | desktop/src/linkable_desktop/crypto/session_cipher.py:78-86 | In every run no counter is given to two frames if and only if nothing was written after a write that failed once its frame had been handed to the stream; the same of the frames that have bytes on the wire |
| TransportSequence.FailedWriteReusesCounter | desktop/src/linkable_desktop/crypto/session_cipher.py:83-86 | Runs in which a write fails in its flush, with or without bytes out, and the next thread's write puts both frames on the wire under one counter |
| SessionCipher.NoncesAreDistinct | desktop/src/linkable_desktop/crypto/session_cipher.py:37-38 | Below 2^64 different counters give different nonces (deterministic construction, section 8.2.1 of NIST SP 800-38D) |
| SessionCipher.NonceBytes | desktop/src/linkable_desktop/crypto/session_cipher.py:37-38 | A nonce is four zero bytes and the eight bytes of the counter, the most significant first |
| SessionCipher.ReadAnyFrame | desktop/src/linkable_desktop/crypto/session_cipher.py:88-99 | What becomes of a frame with any counter and any sealed bytes: refused for its size, refused as replayed, refused unless its bytes decrypt under its own nonce, refused unless they parse, or returned |
| SessionCipher.ReadShort | desktop/src/linkable_desktop/crypto/session_cipher.py:102-109 | Fewer bytes than a frame announces are the end of the stream |
| SessionCipher.ItemsAreAuthentic | desktop/src/linkable_desktop/crypto/session_cipher.py:95-99 | Whatever bytes arrive, every envelope returned parses from a text that some bytes decrypt to under the nonce of its counter |
| SessionCipher.OnlySentIsReturned | desktop/src/linkable_desktop/crypto/session_cipher.py:88-99 | If only what the peer sealed decrypts, then whatever bytes arrive only the peer's envelopes are returned, each with its own counter |
| SessionCipher.WritesExactly | desktop/src/linkable_desktop/crypto/session_cipher.py:78-86 | A frame is written unless its counter reaches 2^64 or its length 2^32 |
| SessionCipher.ReadFrame | desktop/src/linkable_desktop/crypto/session_cipher.py:88-99 | One genuine frame is returned with its counter, refused as replayed, or refused for its size, and the rest of the stream is left |
| SessionCipher.ReadsGenuineFrames | desktop/src/linkable_desktop/crypto/session_cipher.py:88-99 | Under any reordering, loss or repetition of frames the reader returns each as sent, in order of arrival, up to the first repetition, where it stops |
| SessionCipher.RoundTripExactly | desktop/src/linkable_desktop/crypto/session_cipher.py:78-99 | The reader returns all envelopes in order with counters 0, 1, ... if and only if every frame is within its limit |
| SessionCipher.NoCounterTwice | desktop/src/linkable_desktop/crypto/session_cipher.py:27-34 | Whatever bytes arrive, no counter is returned twice |
| SessionCipher.ReplayGuard.CheckAndMark | desktop/src/linkable_desktop/crypto/session_cipher.py:31-34 | Accepts a counter exactly if it is new, and remembers it |
| SessionCipher.EncryptedEnvelopeChannel.WriteEnvelope | desktop/src/linkable_desktop/crypto/session_cipher.py:78-86 | Appends the frame whose counter is the number of earlier frames, or changes nothing when the counter or the length does not fit |
| SessionCipher.EncryptedEnvelopeChannel.ReadEnvelope | desktop/src/linkable_desktop/crypto/session_cipher.py:88-99 | Under any split of the stream: result, remaining bytes and seen counters are those of the reading function |
| SessionCipher.EncryptedEnvelopeChannel.ReadToTheEnd | desktop/src/linkable_desktop/crypto/session_cipher.py:88-99 | Reading until the first error, under any split of the stream, returns what the function over the whole byte string says |
| Streams.ReadExact | desktop/src/linkable_desktop/crypto/session_cipher.py:102-109 | Under any short reads returns exactly the next bytes, or fails at the end of the stream and has used it up |
| FileNames.UniqueName | desktop/src/linkable_desktop/transfer/file_receiver.py:130-140 | Ends for every directory with an absent name: the name itself, or its first free numbered candidate |
| FileNames.CandidatesAreDistinct | desktop/src/linkable_desktop/transfer/file_receiver.py:137 | Candidates with different numbers differ |
| FileNames.CandidateKeepsExtension | desktop/src/linkable_desktop/transfer/file_receiver.py:133-137 | A numbered name counts behind what is before its last dot and keeps what is behind it |
| FileNames.CandidateWithoutExtension | desktop/src/linkable_desktop/transfer/file_receiver.py:133-137 | A name without a dot, or with one only at its start or its end, counts at its end |
| FileNames.TakenCandidates | desktop/src/linkable_desktop/transfer/file_receiver.py:136-140 | The candidates taken so far are no more than the existing names |
| FileNames.FreeNameExactly | desktop/src/linkable_desktop/transfer/file_receiver.py:130-140 | Among the names whose predecessors in the search are taken, the search finds a name if and only if it is free |
| FileNames.TempNamesAreDistinct | desktop/src/linkable_desktop/transfer/file_receiver.py:28 | Temporary names of transfers with dotless ids determine final name and id |
| FileNames.FreeNameStaysFinal | desktop/src/linkable_desktop/transfer/file_receiver.py:27 | Numbering a name never makes it end like a temporary file |
| FileReceiving.ReceiverAnswersExactly | desktop/src/linkable_desktop/transfer/file_receiver.py:25-105 | After any message sequence that never leaves two open transfers in each other's way, the answer to any message is what its own transfer's messages call for: saved exactly for chunks in place, not none, of the offered size and the completed hash, and then the file is their concatenation; an offer whose id has a slash raises, and so does whatever touches the files of an id with a null character |
| FileReceiving.HandleAllMirrors | desktop/src/linkable_desktop/transfer/file_receiver.py:25-105 | After such a sequence each transfer's table entry and temporary file hold exactly the chunks accepted since its latest offer |
| FileReceiving.HashDecidesExactly | desktop/src/linkable_desktop/transfer/file_receiver.py:88-105 | After any sequence without clashes that has brought all bytes of a transfer, a completion with a hexadecimal hash saves them if it is the same number, digit by digit, as their hash, and otherwise answers a mismatch and deletes them |
| FileReceiving.LowerComparesHex | desktop/src/linkable_desktop/transfer/file_receiver.py:89 | Lowering two hexadecimal strings makes them equal exactly when they have the same length and digit values |
| FileReceiving.HoldingsStayRightExactly | desktop/src/linkable_desktop/transfer/file_receiver.py:44-105 | From any state that holds what the messages say: it goes on doing so under every continuation of the open transfers if and only if no two of them share a temporary file and none can still be saved over the temporary file of another |
| FileReceiving.WellNamedRunsAreClear | desktop/src/linkable_desktop/transfer/file_receiver.py:27-28 | Ids without a dot and names that do not end in `.part` keep all open transfers out of each other's way |
| SavedFiles.SavedFileStaysExactly | desktop/src/linkable_desktop/transfer/file_receiver.py:25-105 | In any state: every continuation without clashes and without a temporary file of that name keeps the bytes of a file if and only if no open transfer that reserved the name can still be saved with other bytes |
| SavedFiles.FinalNamesAreSpared | desktop/src/linkable_desktop/transfer/file_receiver.py:28 | A run without clashes never has a temporary file whose name does not end in `.part` |
| SavedFiles.SavedFileStays | desktop/src/linkable_desktop/transfer/file_receiver.py:98 | A saved file whose name does not end in `.part` and that no open transfer has reserved is never changed by any later messages |
| SavedFiles.SameNameOffersShareExactly | desktop/src/linkable_desktop/transfer/file_receiver.py:27-35 | After any messages, another offer of an open transfer's name reserves the same final file if and only if its id has no slash and nothing has been saved there yet |
| SavedFiles.SecondTransferReplaces | desktop/src/linkable_desktop/transfer/file_receiver.py:25-105 | Two transfers of one name with their chunks in between are both reported saved to one file, and the second replaces the first |
| SavedFiles.SavedFileCanBeDeleted | desktop/src/linkable_desktop/transfer/file_receiver.py:28-30 | An offer of `a` with the id `1` deletes a file that was saved as `a.1.part` |
| SavedFiles.OpenTransfersCanClash | desktop/src/linkable_desktop/transfer/file_receiver.py:27-28 | Offers of `a` with the id `1` and then of `a.1.part` leave two open transfers in each other's way |
| FileReceiving.FileReceiver.HandleOffer | desktop/src/linkable_desktop/transfer/file_receiver.py:25-42 | Reserves a unique absent name and leaves no temporary file for it, or raises and changes nothing for a slash in the id; the object stays what the messages make of the directory |
| FileReceiving.FileReceiver.HandleChunk | desktop/src/linkable_desktop/transfer/file_receiver.py:44-67 | Keeps the object's meaning; without clashes a chunk is accepted exactly at the running offset of the accepted ones, the temporary file then holds them all, and a chunk elsewhere ends the transfer; an open transfer whose id has a null character raises |
| FileReceiving.FileReceiver.HandleComplete | desktop/src/linkable_desktop/transfer/file_receiver.py:69-105 | Keeps the object's meaning; without clashes success means exactly that the transfer is under way with some chunks of the offered size and the given hash, the saved file is their concatenation, and it raises exactly for an empty one or an id with a null character |
| FileSending.SendFromPhone | android/app/src/main/java/com/linkable/transfer/PhoneFileSender.kt:92-148 | Under any short reads into the reused buffer: offer, chunks at running offsets that concatenate to the file, completion, with consecutive sequence numbers |
| FileSending.SendFromDesktop | desktop/src/linkable_desktop/transfer/file_sender.py:36-84 | The same, with every chunk but the last full |
| Transfer.TrackDependsOnOwnMessages | desktop/src/linkable_desktop/transfer/file_receiver.py:44-67 | What a message sequence means for a transfer depends on that transfer's messages only |
| Transfer.SessionSurvivesExactly | desktop/src/linkable_desktop/transfer/file_receiver.py:25-105 | File traffic leaves the session running if and only if no transfer offered as empty, and without chunks, is completed, no offer's id has a slash, and no open transfer whose id has a null character gets another chunk or completion |
| Transfer.SlashEndsSession | desktop/src/linkable_desktop/transfer/file_receiver.py:28 | An offer whose id has a slash ends the session at once |
| Transfer.NulEndsSession | desktop/src/linkable_desktop/transfer/file_receiver.py:64 | An offer whose id has a null character is accepted, and its first chunk ends the session |
| Transfer.FileArrivesExactly | desktop/src/linkable_desktop/transfer/file_receiver.py:25-105 | A file sent in any pieces, under an id that can be part of a name and among any traffic of others that does not raise, is saved with its own bytes if and only if it is not empty; an empty one raises |
| Transfer.FileArrivesOverTheChannel | desktop/src/linkable_desktop/crypto/session_cipher.py:78-99 | The same on the bytes of the sealed and framed envelopes |
| Transfer.ServeFiles | desktop/src/linkable_desktop/pairing/pairing_server.py:575-584 | The read loop over a stream of short reads answers each message in order until the stream ends or a handler raises |
| Transfer.FileArrivesOverTheStream | desktop/src/linkable_desktop/pairing/pairing_server.py:575-584 | End to end over a stream that splits the frames anywhere: the loop answers the file's completion with success and the saved file is the one that was sent |
| NsdDiscovery.RestartIsNeverStranded | android/app/src/main/java/com/linkable/discovery/NsdDiscoveryManager.kt:79-296 | In every run, late callbacks included: pending clear implies pending restart, which implies wanted and a listener or a start timer; wanted exactly while a lease is held; a stop in progress has a listener; the published list is current |
| NsdDiscovery.NothingLeaks | android/app/src/main/java/com/linkable/discovery/NsdDiscoveryManager.kt:262-362 | In every run, with no lease and no listener the lock is free, the callback is unregistered, no delayed task is scheduled and no restart is pending |
| NsdLaws.TasksAreLawful | android/app/src/main/java/com/linkable/discovery/NsdDiscoveryManager.kt:45-379 | From every reachable state each task changes leases, scan, results, flags, lock, callback, network and timers as clients, platform and NSD have given cause for, field by field, and nothing else |
| NsdLaws.OldResultsGo | android/app/src/main/java/com/linkable/discovery/NsdDiscoveryManager.kt:100-112 | In every run from a refresh on in which discovery stays wanted: once no restart is pending, every device listed was resolved after the refresh |
| NsdDiscovery.StaysOffExactly | android/app/src/main/java/com/linkable/discovery/NsdDiscoveryManager.kt:48-53 | In every reachable state without leases: every continuation in which no client asks for discovery stays without leases if and only if no refresh has been posted |
| NsdDiscovery.PostedRefreshRevives | android/app/src/main/java/com/linkable/discovery/NsdDiscoveryManager.kt:48-53 | A run in which a posted refresh outlives the last client's stop and starts discovery again on a lease nobody holds |
| NsdDiscovery.ScanIsEquippedExactly | android/app/src/main/java/com/linkable/discovery/NsdDiscoveryManager.kt:146-201 | In every run without answers of dropped listeners, and with registration working, a listener has its lock and callback, and the next task leaves it so if and only if it is not such an answer while another listener runs |
| NsdDiscovery.LateAnswerStripsScan | android/app/src/main/java/com/linkable/discovery/NsdDiscoveryManager.kt:187-201 | A run in which the late end of a dropped listener leaves a wanted, running scan without lock and callback |
| NsdDiscovery.DeferralIsDead | android/app/src/main/java/com/linkable/discovery/NsdDiscoveryManager.kt:126-135 | In every run no stop is in progress without a listener, so a start is never deferred |
| NsdDiscovery.WantedDiscoveryResumes | android/app/src/main/java/com/linkable/discovery/NsdDiscoveryManager.kt:126-296 | In every orderly run wanted discovery without a listener has a pending restart and a timer for it |
| NsdDiscovery.StartIsSafeExactly | android/app/src/main/java/com/linkable/discovery/NsdDiscoveryManager.kt:126-130 | After a start every orderly continuation keeps discovery going if and only if no final stop was outstanding |
| NsdDiscovery.FinalStopCanBeOutstanding | android/app/src/main/java/com/linkable/discovery/NsdDiscoveryManager.kt:87-98 | A start and a stop lead to the unsafe case |
| NsdDiscovery.StepKeepsInvariant | android/app/src/main/java/com/linkable/discovery/NsdDiscoveryManager.kt:45-379 | Every task keeps the agreement of flags, leases, listener, timers, lock, callback and published list |
| NsdDiscovery.StepKeepsProgressing | android/app/src/main/java/com/linkable/discovery/NsdDiscoveryManager.kt:126-296 | Every orderly task keeps wanted discovery running or about to restart |
| NsdDiscovery.NsdDiscoveryManager.OnStartDiscovery | android/app/src/main/java/com/linkable/discovery/NsdDiscoveryManager.kt:79-85 | Keeps the invariant; the caller's lease is held, a running scan is undisturbed, and otherwise a scan runs with lock and callback or its retry is scheduled |
| NsdDiscovery.NsdDiscoveryManager.OnStopDiscovery | android/app/src/main/java/com/linkable/discovery/NsdDiscoveryManager.kt:87-98 | Keeps the invariant; while leases remain nothing else changes, and with the last one nothing is planned and the scan is being stopped or everything is released |
| NsdDiscovery.NsdDiscoveryManager.OnRefreshDiscovery | android/app/src/main/java/com/linkable/discovery/NsdDiscoveryManager.kt:100-112 | Keeps the invariant; the lease is held, a scan is new or being stopped for a restart or to be retried, and old results are gone or will be cleared |
| NsdDiscovery.NsdDiscoveryManager.OnShutdown | android/app/src/main/java/com/linkable/discovery/NsdDiscoveryManager.kt:114-124 | Keeps the invariant; no lease is left, nothing is planned and the scan is being stopped or everything is released |
| NsdDiscovery.StartMeans | android/app/src/main/java/com/linkable/discovery/NsdDiscoveryManager.kt:126-260 | In a state that keeps the invariant a wanted start ends with a scan or a scheduled retry, leaves a running scan alone, and clears the results when asked to |
| NsdDiscovery.NsdDiscoveryManager.StopDiscoveryLocked | android/app/src/main/java/com/linkable/discovery/NsdDiscoveryManager.kt:262-286 | Restores the invariant; a final stop leaves the scan being stopped or everything released, another one leaves a pending restart under way |
| NsdDiscovery.NsdDiscoveryManager.FinishPendingRestart | android/app/src/main/java/com/linkable/discovery/NsdDiscoveryManager.kt:288-296 | Restores the invariant; a pending restart ends with a scan or a scheduled retry |
| NsdDiscovery.NsdDiscoveryManager.OnStartFailed | android/app/src/main/java/com/linkable/discovery/NsdDiscoveryManager.kt:146-162 | Keeps the invariant; the listener and lock are gone, and wanted discovery has exactly one retry scheduled, or everything is released |
| NsdDiscovery.NsdDiscoveryManager.OnStopFailed | android/app/src/main/java/com/linkable/discovery/NsdDiscoveryManager.kt:164-178 | Keeps the invariant; the listener and lock are gone, and a pending restart has one more timer, or lock and callback are free |
| NsdDiscovery.NsdDiscoveryManager.OnStopped | android/app/src/main/java/com/linkable/discovery/NsdDiscoveryManager.kt:187-201 | Keeps the invariant; the listener is gone, and a pending restart becomes a new scan or a retry unless another scan runs, with nothing left of the old results if they were to be cleared, or lock and callback are free |
| NsdDiscovery.NsdDiscoveryManager.OnWifiAvailable | android/app/src/main/java/com/linkable/discovery/NsdDiscoveryManager.kt:364-379 | Keeps the invariant and the leases; the first network gets wanted discovery under way, the same one changes nothing, another one leaves exactly one restart scheduled |
| NsdDiscovery.NsdDiscoveryManager.OnServiceResolved | android/app/src/main/java/com/linkable/discovery/NsdDiscoveryManager.kt:220-228 | Keeps the invariant; the device is listed under its name, all others as before, and the published list is current |
| Nv21.Yuv420888ToNv21 | android/app/src/main/java/com/linkable/camera/CameraStreamController.kt:693-727 | For any strides, crop, size and plane lengths: it raises exactly when a plane that is not empty has both strides zero; otherwise luma row-major, V and U at alternating offsets behind it, each sample from its own place, where its plane ends before it 0 for luma and 128 for chroma, and 128 in every leftover byte; all accesses in bounds |
| Nv21.LumaOfFormat | android/app/src/main/java/com/linkable/camera/CameraStreamController.kt:693-704 | Byte width * r + c of the image is the luma sample of row top + r and column left + c, or 0 where the plane ends before it |
| Nv21.ChromaOfFormat | android/app/src/main/java/com/linkable/camera/CameraStreamController.kt:705-725 | Behind the luma the bytes of row r and column c are the V and then the U sample of row top / 2 + r and column left / 2 + c, or 128 |
| Nv21.LeftoverOfFormat | android/app/src/main/java/com/linkable/camera/CameraStreamController.kt:694-695 | The bytes of odd sizes that no sample fills are 128 |
| Nv21.CopyPlane | android/app/src/main/java/com/linkable/camera/CameraStreamController.kt:729-770 | The output is that of copying all rows, although the loop stops at the end of the plane; it raises exactly when the row buffer is empty and the plane is not |
| Nv21.CopyPixels | android/app/src/main/java/com/linkable/camera/CameraStreamController.kt:761-768 | The pixel loop through the row buffer writes one row |
| Nv21.CopyBlock | android/app/src/main/java/com/linkable/camera/CameraStreamController.kt:755-760 | The block copy writes the same row |
| Nv21.RowsAt | android/app/src/main/java/com/linkable/camera/CameraStreamController.kt:744-769 | Every pixel of every row lands at its own place and stays there |
| Nv21.RowsElsewhere | android/app/src/main/java/com/linkable/camera/CameraStreamController.kt:762-768 | Everything else is left alone, also the bytes between chroma samples |
| Nv21.RowsCopiedIsPlaneCopied | android/app/src/main/java/com/linkable/camera/CameraStreamController.kt:729-770 | Copying all rows places every pixel of the crop and keeps the rest |
| Nv21.CopiesMakeNv21 | android/app/src/main/java/com/linkable/camera/CameraStreamController.kt:693-727 | The luma, V and U copies together make the image; none overwrites another |
| Nv21.PlacesAreProducts | android/app/src/main/java/com/linkable/camera/CameraStreamController.kt:714-723 | The places of the samples are the products of the format |
| Nv21.SourceIsProduct | android/app/src/main/java/com/linkable/camera/CameraStreamController.kt:745 | The place read is row stride times row plus pixel stride times column, from the crop's corner |
| CameraStream.CameraWriter.constructor | android/app/src/main/java/com/linkable/camera/CameraStreamController.kt:565-576 | Writes the preamble unless frames go through the session; no frames yet |
| CameraStream.CameraWriter.ProcessFrame | android/app/src/main/java/com/linkable/camera/CameraStreamController.kt:578-615 | Nothing after a stop or too soon; otherwise one frame after its length, or one numbered frame for the session if its queue has room; converted frames stay a frame gap apart, session numbers rise, and the count of frames sent is right |
| CameraStream.FrameGapIsLongest | android/app/src/main/java/com/linkable/camera/CameraStreamController.kt:581 | The gap is the longest whole number of milliseconds of which the frames of a second fit into a second |
| CameraStream.FitsExactly | desktop/src/linkable_desktop/camera/stream_receiver.py:110-115 | A frame is taken exactly from one byte to four mebibytes |
| CameraStream.ReadFrames | desktop/src/linkable_desktop/camera/stream_receiver.py:110-115 | Under any split of the stream the loop delivers the frames that parsing gives, with the same ending, the stop flag included |
| CameraStream.ReadClient | desktop/src/linkable_desktop/camera/stream_receiver.py:102-115 | The same with the preamble and token checks |
| CameraStream.FramesRoundTrip | desktop/src/linkable_desktop/camera/stream_receiver.py:110-115 | Written frames are delivered in order up to the stop or the first that is empty or over four mebibytes |
| CameraStream.ParseWrittenToken | android/app/src/main/java/com/linkable/camera/CameraStreamController.kt:569-571 | The reader finds the token cut to its length modulo 2^16 |
| CameraStream.StreamRoundTripExactly | desktop/src/linkable_desktop/camera/stream_receiver.py:102-115 | With an ASCII token all frames arrive in order and the stream ends cleanly if and only if the token is shorter than 2^16, every frame has 1 byte to 4 MiB, and the stop flag is not set before |
| Base32.Base32NoPadding | android/app/src/main/java/com/linkable/crypto/CryptoUtils.kt:120-139 | For every input the streaming encoder over the wrapping buffer gives the encoding of section 6 of RFC 4648 without padding, of length ceil(8n/5) |
| Base32.DeriveDeviceId | android/app/src/main/java/com/linkable/crypto/CryptoUtils.kt:13-16 | The phone's device id is the desktop's expression for it, sixteen characters long |
| Base32.StandardIsUnpadded | desktop/src/linkable_desktop/crypto/identity.py:15-17 | The standard's quantum-wise encoding with `=` stripped is the base 32 numeral of all input bits filled up to a multiple of five |
| Base32.EncodingIsInjective | desktop/src/linkable_desktop/crypto/identity.py:17 | Encodings without padding determine their bytes |
| Base32.MaskIgnoresWrap | android/app/src/main/java/com/linkable/crypto/CryptoUtils.kt:129 | The masked shift reads the same five bits from the wrapped buffer as from the whole number |
| Base32.LastBitsIgnoreWrap | android/app/src/main/java/com/linkable/crypto/CryptoUtils.kt:135 | So does the masked shift of the last bits |
| Base32.PushKeepsWrap | android/app/src/main/java/com/linkable/crypto/CryptoUtils.kt:126 | Pushing a byte into the wrapped buffer wraps the whole number |
| KeyDerivation.HkdfSha256 | android/app/src/main/java/com/linkable/crypto/CryptoUtils.kt:18-43 | Exactly the first L bytes of T(1), T(2), ... (sections 2.2 and 2.3 of RFC 5869) in ceil(L/32) rounds; an empty salt and a negative length raise |
| KeyDerivation.KeyIsChained | android/app/src/main/java/com/linkable/crypto/CryptoUtils.kt:18-43 | Each full block of the result, up to the 255th, is the HMAC, under the extracted key, of the block before it, the info and its own number |
| KeyDerivation.ShorterKeyIsPrefix | android/app/src/main/java/com/linkable/crypto/CryptoUtils.kt:18-43 | A shorter result is the beginning of a longer one |
| KeyDerivation.DerivePairingCode | android/app/src/main/java/com/linkable/crypto/CryptoUtils.kt:45-60 | The phone's code is the desktop's if and only if there is a salt and the length is at most 19 or the number is below the wrapped power of ten |
| KeyDerivation.CodesAgreeExactly | desktop/src/linkable_desktop/pairing/code_generator.py:28-30 | For all eight bytes and lengths: both codes are the same if and only if the length is at most 19 or the number is below the wrapped power of ten |
| KeyDerivation.LongCodesDisagree | android/app/src/main/java/com/linkable/crypto/CryptoUtils.kt:109-113 | For every length from 20 on there are bytes for which the phone fails or shows another code |
| KeyDerivation.PhoneCodeFailsExactly | android/app/src/main/java/com/linkable/crypto/CryptoUtils.kt:59-60 | The phone fails, dividing by zero, exactly for lengths from 64 on |
| KeyDerivation.CodeDigitAt | desktop/src/linkable_desktop/pairing/code_generator.py:29-30 | Digit i from the left is the decimal digit of the number at that place |
| KeyDerivation.CodeDigits | desktop/src/linkable_desktop/pairing/code_generator.py:29-30 | A code has exactly the digits asked for, all decimal, and the value of the number modulo the power of ten |
| KeyDerivation.FoldIsBigEndian | android/app/src/main/java/com/linkable/crypto/CryptoUtils.kt:58 | The wrapping fold over at most eight bytes is their big-endian value |
| KeyDerivation.WrappingPow10 | android/app/src/main/java/com/linkable/crypto/CryptoUtils.kt:109-113 | The wrapping loop computes the power of ten modulo 2^64 |
| SessionSignature.BuildSessionSignaturePayload | desktop/src/linkable_desktop/session/auth.py:29-47 | Builds the payload of six fields and four numbers, or fails exactly when a field's length does not fit 32 bits |
| SessionSignature.PayloadLayout | desktop/src/linkable_desktop/session/auth.py:29-47 | Both payloads are label, fingerprint, name, platform, identity key and ephemeral key, each after its length, and the three version numbers and the time as eight bytes each, the phone's versions sign-extended |
| SessionSignature.LongBytes | android/app/src/main/java/com/linkable/crypto/CryptoUtils.kt:92-94 | The phone writes a version from 2^31 on behind four bytes of ones, where the desktop writes zeros |
| SessionSignature.LongValue | desktop/src/linkable_desktop/session/auth.py:43-46 | The eight bytes of a number are its value in two's complement |
| SessionSignature.AppendField | desktop/src/linkable_desktop/session/auth.py:24-26 | Appends one field after its length, or fails when the length does not fit |
| SessionSignature.BuildOnPhone | android/app/src/main/java/com/linkable/crypto/CryptoUtils.kt:79-97 | Builds the phone's payload, with version numbers widened from signed ints |
| SessionSignature.WriteLengthPrefixed | android/app/src/main/java/com/linkable/crypto/CryptoUtils.kt:115-118 | Appends one field after its length |
| SessionSignature.PayloadIsInjective | desktop/src/linkable_desktop/session/auth.py:29-47 | Equal payloads come from equal label, descriptor fields, ephemeral key, version and time |
| SessionSignature.PhonePayloadIsInjective | android/app/src/main/java/com/linkable/crypto/CryptoUtils.kt:79-97 | The same for the phone's payload |
| SessionSignature.PayloadsAgreeExactly | android/app/src/main/java/com/linkable/crypto/CryptoUtils.kt:92-94 | Both programs give the same bytes if and only if no version number reaches 2^31 |
| SessionSignature.InitIsNeverAck | desktop/src/linkable_desktop/session/auth.py:14-15 | No payload under the init label equals one under the ack label, whichever program wrote them |
| Framing.ReadEnvelope | desktop/src/linkable_desktop/transport/framing.py:21-29 | Under any split of the stream the result and the rest are those of the reading function |
| Framing.WriteEnvelope | desktop/src/linkable_desktop/transport/framing.py:32-36 | Appends one frame, or fails and writes nothing when the length does not fit |
| Framing.ReadAnyFrame | desktop/src/linkable_desktop/transport/framing.py:21-29 | What becomes of any payload at all: refused for its size or its content, or returned as what it parses to |
| Framing.FramesRoundTrip | desktop/src/linkable_desktop/transport/framing.py:21-36 | The reader returns what was written up to the first envelope whose encoding is empty or over the limit |
| Clipboard.ClipboardStore.RecordClipboardUpdate | desktop/src/linkable_desktop/app/runtime.py:1125-1148 | List, map and set still describe the last thirty accepted updates of everything received; the change is signalled exactly when one was accepted |
| Clipboard.ClipboardStore.ClipboardUpdates | desktop/src/linkable_desktop/app/runtime.py:439-447 | The view is the last thirty accepted updates, newest first |
| Clipboard.AcceptsExactly | desktop/src/linkable_desktop/app/runtime.py:1126-1147 | An update is accepted exactly if it has text and none of the last thirty accepted has its key or its fingerprint |
| Clipboard.KeyIsIdOrDigest | desktop/src/linkable_desktop/app/runtime.py:1128-1132 | An update goes by its own id and, only without one, by its fingerprint, the digest of device and text; so two short texts of one device collide only when the digest does |
| Clipboard.FingerprintsCompareTexts | desktop/src/linkable_desktop/app/runtime.py:1128-1131 | With a digest that does not collide, two updates of one device have one fingerprint exactly if the first 8192 characters of their texts are the same |
| Clipboard.AddKeepsAgreement | desktop/src/linkable_desktop/app/runtime.py:1136-1138 | Adding a new update to all three indexes keeps them in agreement |
| Clipboard.EvictKeepsAgreement | desktop/src/linkable_desktop/app/runtime.py:1139-1147 | Evicting the oldest from all three keeps them in agreement |
| Clipboard.SameSizes | desktop/src/linkable_desktop/app/runtime.py:1136-1147 | The three indexes have the same size |
| Clipboard.ShownAreDistinct | desktop/src/linkable_desktop/app/runtime.py:1134-1135 | Whatever was received, no two shown updates share an id or a fingerprint |
| Clipboard.CopiesAreShown | desktop/src/linkable_desktop/app/runtime.py:1126-1138 | After an update with text arrives, it or one with its id or its content is shown |
| Clipboard.ShownUpdatesAreIgnored | desktop/src/linkable_desktop/app/runtime.py:1134-1135 | Receiving again any updates that are shown changes nothing |

## Left out

- Cryptographic strength of AES-GCM, ECDSA, ECDH, HMAC and SHA-256; only the laws named above are used.
- The derivation of the two directional session keys: it is HKDF applied to fixed labels.
- Sockets, threads, clocks and the Android platform: they are the choices that steps, short reads and platform answers leave open.
- Failed writes of the channel: a failed write ends a pump round or a session. What becomes of its frame is in `TransportSequence` only, where a frame counts as handed over with its length; the channel object's writes succeed.
- Threads that share state are steps on values, not objects: each step is what one lock, queue, event or semaphore operation makes atomic, and the locks themselves do not appear.
- Callbacks of the user interface are assumed not to raise; the release of the registry would otherwise be skipped.
- SessionEngine: whether the pairing window is open, the user agrees, Safe Wi-Fi allows the network, and messages get through are free choices of each step.
- PairingManager, the phone's session writer and the phone's file receiver are not part of this model; the phone's sequence provider is taken to count up.
- The trust store's file: it is a map with lookup, insert and remove.
- OutgoingPump: the file request at the head of a round stands for all messages of that file; requests are told apart by identity only.
- NsdDiscovery.NsdDiscoveryManager.OnServiceFound: the filter on service type and blank names, and resolutions without an address, which only leave the resolving set; NSD callbacks that run off the main handler are single steps.
- NsdDiscovery: the published list is a set, without its sorting; a failing release of the multicast lock and the cooldown of a log line are left out.
- FileReceiving.FileReceiver.HandleOffer: the download directory is flat and changed only by the receiver; errors of the file system other than the missing temporary file are left out.
- FileSending.SendFromPhone: the file does not change between hashing and sending; `send` differs from `sendFile` only in how the input is opened and in its log lines.
- Nv21.Yuv420888ToNv21: products are unbounded, so images whose size times three overflows 32 bits are not covered; the row buffer is a sequence, not a reused array.
- CameraStream.CameraWriter.ProcessFrame: compressing the image, and a failed write to the socket, which stops the stream.
- CameraStream.ReadClient: receive timeouts, which end it like the end of the stream.
- KeyDerivation.HkdfSha256: beyond 255 rounds the standard stops; the phone's wrapped counter is described, but no standard covers it.
- KeyDerivation.DerivePairingCode: negative code lengths.
- SessionSignature: text fields are their UTF-8 bytes; encoding text is not modelled.
- Clipboard: the digest is any function, so two texts with one digest count as the same content, as in the code.
- Contacts, telephony, Bluetooth, storage, notifications, settings, service advertising, the user interfaces and the smaller state machines around them: they would add only easier members.

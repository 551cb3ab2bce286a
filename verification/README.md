# Verified model of the rubix messenger core

rubix is a peer-to-peer messenger. Peers find each other by signed UDP beacons, authenticate with a Noise KK
handshake in which each message carries a signed identity payload, and then exchange length-prefixed encrypted
frames. This project models the stateful core of that program in Dafny and proves what it promises over whole runs:

* **Handshake** (`IdentityBind`, `ReplayCache`, `Handshake`, `HandshakeAnswers`, `HandshakeRuns`, `HandshakeWitness`,
  `ReplayClock`): over every run of any number of sessions, on replay caches of their own or shared, and a network that
  drops, repeats, reorders or invents bytes, a session with a transport rests on a fresh payload that the owner of the
  expected fingerprint created; a pruned cache is the window of the complete log of accepts on it; and accepting one payload
  twice on one cache takes a full turnover of that cache, which is exactly where the bound holds. Two honest ends always
  complete. The transport's Noise key is the verified key exactly when the key given at the start belongs to the
  expected fingerprint.
* **Connections** (`ConnectionManager`, `ConnectionLimit`): every interleaving of connect calls, tasks, loops,
  disconnects, trust and clean-up.
* **Rate limiter** (`RateLimit`): the pruned per-key lists against the full history, in and out of clock order.
* **Messages and delivery** (`Message`, `SendMessage`): the state machine, its timestamps, and the write-through send
  with backoff for every behaviour of storage and network.
* **Channel** (`Framing`, `Channel`, `ChannelRuns`): transport counters and the frame codec, end to end over a byte
  stream, with receives that wait, resume and are abandoned.
* **Key store** (`SecureStore`): nested layouts and crashes at any step.
* **Text forms and derived views** (`Fingerprint`, `Beacon`, `PeerStatus`).

`dafny verify dfyconfig.toml` checks the whole project.

## How the model is built

* Objects that change in place are classes (`NonceCache`, `NoiseHandshake`, `Manager`, `RateLimiter`, `MessageBox`,
  `Ports`, `Disk`, `ByteStream`, `Wire`, `Transport`, `EncryptedConnection`). Each method is proved to be a step of a
  function on values (`CheckStep`, `Next`, `TransitionState`, `Sent`, `Polled`, ...), and the theorems about runs are
  about those functions, stated against independent definitions: an unbounded log, a count over an interval, a set of
  created payloads, a list of sent plaintexts.
* Cryptography, the Noise handshake encryption, the transport cipher and the vault cipher are records of functions
  passed as parameters. What a theorem needs of them is its precondition (`SignaturesVerify`, `NoiseDelivers`, `Correct`,
  `TagLengths`, `Opens`); `PromisesHaveAModel`, `TaggedIsCorrect` and `OpensHasAModel` show them consistent.
  `TransportIsAuthentic` and `ReplayNeedsTurnover` need nothing of Noise; unforgeability is assumed per delivered
  payload, only for honest keys. That a fingerprint has no second key pair is a premise of the clauses that need it.
* Integers are bounded where the source's width matters: i64 timestamps in two's complement, u64 beacon times, u32
  lengths, the u64 message counter. The plain additions of `beacon.rs:91-95` panic on overflow in a build with overflow
  checks and wrap around in one without; `Beacon.Verify` covers both, and `Panicked` stands for the panic.
* Text is its UTF-8 bytes. Clock readings, random nonces, salts and ephemeral keys are inputs. Times are in
  nanoseconds, except the payload and beacon timestamps, which are whole seconds. The wall clock that `verify` reads and
  the monotonic clock that the cache reads are two readings that nothing relates, save in the clauses that say so.
* Concurrency is interleaving of steps; a step is what runs between two awaits. A session or an execution may stop
  after any step.

## Where the code and its documentation differ

The model follows the code.

* "Nonce replay cache prevents duplicate payloads" (`handshake.rs:7`), if it is shared (`handshake.rs:30-35`). The
  program does not share it: `client.rs:79` and `server.rs:130` call the constructors that give each handshake a new
  cache of 10000 (`handshake.rs:100-111`, `handshake.rs:147-158`). Between two accepts the bound holds exactly when they
  are on one cache; a session on a new cache takes whatever verifies: `BoundHoldsIffOneCache`,
  `AcceptedIffUnseenOnOwnCache`, `NewCacheTakesWhatVerifies`, `TwoCachesTakeOnePayload`.
* `identity_bind.rs` and `handshake.rs` intend the 60 s cache lifetime to cover the 30 s skew on both sides. Timestamps
  are cut to whole seconds and cache times are not, so it does for clocks that tick in whole seconds and only for those:
  `ReplayNeedsTurnover`, `SubSecondReadingsLeaveAGap`, `TwiceInARowIffTicksAreFiner`.
* The rate limiter reads its clock before it takes its lock (`rate_limit.rs:56-57`), so checks can be applied out of
  order. Whole windows then hold the maximum exactly when it is at most one; windows shortened by the lag always do:
  `WindowBoundHoldsIff`, `NeverMoreThanMaxPerWindow`.
* "10 active encrypted chats" (`connection_manager.rs:1`): the limit is checked before the connection exists, so it
  holds exactly when connects do not overlap: `ActiveBounded`, `BoundIsAttained`, `LimitHoldsIffConnectsDoNotOverlap`.
* "Dropping the handle ... signals the task to exit" (`connection_manager.rs:287`): a closed channel only disables its
  branch of the `select`, and the loop runs on until its connection or its receiver fails: `LoopsOutliveHandles`,
  `HandleKeptIffNotEvicted`.
* `connection.rs:89-97` describes `recv` as yielding a message or an error. Its only caller is a branch of a biased
  `select` (`connection_manager.rs:227-239`) that drops it whenever there is a message to send, and with it the bytes
  that `read_exact` has taken (`codec.rs:59-92`). Delivery is whole, in order and free of errors exactly when no receive
  is dropped with bytes in hand: `WholeIffNeverAbandonedWithBytesInHand`, `CutShortIsLost`, `AbandoningLeadsToAnError`.
* "Ed25519 identity binding prevents key substitution" (`client.rs:51`): the X25519 key of the payload is never compared
  to the one Noise was given. If the expected fingerprint has no second key pair, they agree exactly when the given key
  belongs, with some Ed25519 key, to that fingerprint, as it does when both come from a verified beacon:
  `TransportKeyIsVerifiedIffGivenBelongs`, `MismatchedKeyGoesUnnoticed`.
* "`Failed` is terminal", "no backward transitions" (`message_state.rs:4-6`, `message_state.rs:59-62`): a retryable
  failure returns to `Pending`: `FrozenIffFinal`, `SuccessesBounded`.
* `server.rs:130` passes one argument to a three-argument constructor and `connection.rs:64` awaits a synchronous
  function; the definitions of the callees are modelled.

## Model

| member | source | states |
|---|---|---|
| `IdentityBind.WriteBytes` | crates/security/src/noise/identity_bind.rs:95-104 | filling the 149-byte buffer field by field yields the serialization that parsing inverts |
| `IdentityBind.ParseSerialized` | crates/security/src/noise/identity_bind.rs:95-132 | parsing a serialized payload gives the payload back, for all field values including negative timestamps |
| `IdentityBind.SerializeParsed` | crates/security/src/noise/identity_bind.rs:95-132 | exactly the 149-byte strings parse, and each is the serialization of what it parses to: with the row above, a bijection |
| `IdentityBind.PayloadLayout` | crates/security/src/noise/identity_bind.rs:95-104 | the 149 bytes by position, the timestamp in two's complement with its low byte first |
| `IdentityBind.SignedLayout` | crates/security/src/noise/identity_bind.rs:83-92 | the signed bytes are the domain text and the payload up to its signature |
| `IdentityBind.SignedBytesInjective` | crates/security/src/noise/identity_bind.rs:83-92 | equal signed bytes mean equal payloads in every field but the signature |
| `IdentityBind.CreatedVerifies` | crates/security/src/noise/identity_bind.rs:59-186 | a created payload is accepted by exactly the clocks within 30 s and the owner's fingerprint; otherwise it is an internal error (i64 overflow), a replay or a mismatch, in that order |
| `IdentityBind.VerifyAnswers` | crates/security/src/noise/identity_bind.rs:135-186 | on any payload: accepted exactly when version, clock range, freshness, signature and fingerprint all hold, as the identity it names; otherwise the error of the first that does not |
| `ReplayCache.NonceCache.constructor` | crates/security/src/noise/handshake.rs:44-50 | the empty cache |
| `ReplayCache.NonceCache.CheckAndInsert` | crates/security/src/noise/handshake.rs:55-83 | the eviction loop, the look-up and the insertion are one step of the cache as a value |
| `ReplayCache.EvictReachesWindow` | crates/security/src/noise/handshake.rs:58-66 | evicting from the front reaches exactly the accepts at most 60 s old |
| `ReplayCache.InsertKeepsAgreement` | crates/security/src/noise/handshake.rs:73-82 | an insertion, with the capacity eviction before it, keeps queue, set and log in agreement |
| `ReplayCache.CallRefinesLog` | crates/security/src/noise/handshake.rs:55-83 | after a call the queue is the log suffix of at most max(M,1) entries at most 60 s old, the set holds its keys without duplicates, and the verdict is false exactly when the key is in that suffix |
| `ReplayCache.RunAgrees` | crates/security/src/noise/handshake.rs:36-83 | the same after every call of every run under a nondecreasing clock |
| `ReplayCache.RepeatNeedsFullTurnover` | crates/security/src/noise/handshake.rs:55-83 | a key accepted twice within 60 s has max(M,1) accepts in between, of keys different from each other and from it |
| `Handshake.NoiseHandshake.constructor` | crates/security/src/noise/handshake.rs:114-191 | a session that expects a fingerprint and has verified nobody, on the given cache |
| `Handshake.NoiseHandshake.WithOwnCache` | crates/security/src/noise/handshake.rs:100-158 | the same on a new cache of 10000 entries that no other handshake has |
| `Handshake.NoiseHandshake.Read` | crates/security/src/noise/handshake.rs:198-212 | a message over 4096 bytes, out of turn or not authentic is refused without a state change |
| `Handshake.NoiseHandshake.Write` | crates/security/src/noise/handshake.rs:219-227 | in turn, seals the payload and advances; otherwise refuses without a state change |
| `HandshakeAnswers.MessageAnswers` | crates/security/src/noise/handshake.rs:198-227 | a message is read exactly in the peer's turn, within 4096 bytes and if Noise opens it; written exactly in our turn if it fits |
| `Handshake.NoiseHandshake.VerifyPayload` | crates/security/src/noise/handshake.rs:284-308 | parse, verify against the expected fingerprint, then the cache; only a verified payload touches the cache |
| `Handshake.NoiseHandshake.Receive` | crates/security/src/noise/handshake.rs:405-408 | reading and verifying the peer's message, and remembering who it is only if both succeed |
| `Handshake.NoiseHandshake.Send` | crates/security/src/noise/handshake.rs:270-281 | our freshly signed payload, sealed in turn |
| `Handshake.NoiseHandshake.Finish` | crates/security/src/noise/handshake.rs:250-267 | a transport only after both messages and a verified remote, with the right error otherwise |
| `Handshake.NoiseHandshake.PerformInitiator` | crates/security/src/noise/handshake.rs:393-412 | the initiator's whole exchange on any incoming bytes and any room to write: cache, bytes sent and result |
| `Handshake.NoiseHandshake.PerformResponder` | crates/security/src/noise/handshake.rs:445-464 | the responder's whole exchange on any incoming bytes and any room to write |
| `HandshakeAnswers.ReceiveAnswers` | crates/security/src/noise/handshake.rs:405-408 | on any message: taken exactly when Noise opens it to a payload that verifies and whose key is not in the window of the log; the cache then agrees with the log and that entry |
| `HandshakeAnswers.RefusalIsReason` | crates/security/src/noise/handshake.rs:284-308 | a refused message is not authentic, no payload, what verification says, or else a replay |
| `HandshakeAnswers.RespondAnswers` | crates/security/src/noise/handshake.rs:445-464 | the responder on any input: a transport exactly when the message that came in was taken and our reply fits; the peer is the verified one; a responder whose check fails has sent nothing and says why |
| `HandshakeAnswers.InitiateAnswers` | crates/security/src/noise/handshake.rs:393-412 | the initiator on any input: a transport exactly when our message went out whole and the one that came in was taken |
| `Handshake.MessageCrossesStream` | crates/security/src/noise/handshake.rs:312-360 | a message of at most 4096 bytes survives its framed trip over the stream |
| `Handshake.HonestDelivery` | crates/security/src/noise/handshake.rs:198-308 | what an honest sender writes fits the limit, and a paired receiver with a near clock and an unused nonce accepts it |
| `Handshake.HonestHandshakeCompletes` | crates/security/src/noise/handshake.rs:393-464 | two honest ends with near clocks and unused nonces, with one cache or two, both reach transport after exactly two messages on one transcript, each knowing the other's keys |
| `Handshake.MismatchedKeyGoesUnnoticed` | crates/security/src/noise/handshake.rs:250-308 | a responder given another X25519 key for a fingerprint accepts, from the holder of that key, the owner's payload; its Noise key is the verified one exactly if the two keys are equal |
| `HandshakeRuns.StepKeepsInv` | crates/security/src/noise/handshake.rs:250-308 | every step of any session on any cache, any delivery and any signature made elsewhere keeps the run invariant |
| `HandshakeRuns.RunKeepsInv` | crates/security/src/noise/handshake.rs:393-464 | so does every run |
| `HandshakeRuns.SignedMeansCreated` | crates/security/src/noise/identity_bind.rs:83-92 | payload bytes signed by a key come from creating that payload, never from a beacon signed with the same key |
| `HandshakeRuns.TransportIsAuthentic` | crates/security/src/noise/handshake.rs:250-308 | in every run a session with a transport finished Noise and accepted a signed version-1 payload within 30 s of the check, with the expected fingerprint; if that fingerprint has no second key pair the keys are the owner's, and an honest owner had created that very payload by the time of the accept |
| `HandshakeRuns.TransportKeyIsVerifiedIffGivenBelongs` | crates/security/src/noise/handshake.rs:100-191 | in every run, if the expected fingerprint has no second key pair, a transport's Noise key is its verified peer's key exactly when the key the session was opened with belongs to that fingerprint |
| `HandshakeRuns.TransportsRestOnDifferentAccepts` | crates/security/src/noise/handshake.rs:284-308 | no two sessions of a run rest on the same accept |
| `HandshakeRuns.SkewsMeet` | crates/security/src/noise/identity_bind.rs:141-151 | two readings near one timestamp lie at most 60 s apart on the wall clock; in step with it less than 61 s on the monotonic one, and at most 60 s on whole seconds |
| `HandshakeRuns.AcceptedTwice` | crates/security/src/noise/handshake.rs:284-308 | the replay bound on one cache in one state, from the invariant |
| `HandshakeRuns.ReplayNeedsTurnover` | crates/security/src/noise/handshake.rs:55-83 | in every run, a payload accepted twice on one cache has at least max(M,1) other keys accepted on it in between, for all readings at most 60 s apart on the monotonic clock, and so for all whole-second readings of clocks in step |
| `HandshakeRuns.AcceptedIffUnseenOnOwnCache` | crates/security/src/noise/handshake.rs:284-308 | in every run a delivery is accepted exactly when Noise and the parser let it through, it verifies, and its key is not in the window of the accepts on the session's own cache |
| `HandshakeRuns.NewCacheTakesWhatVerifies` | crates/security/src/noise/handshake.rs:100-158 | a session on a cache without accepts takes exactly what verifies, whatever was accepted elsewhere |
| `HandshakeWitness.BothEndsReachTransport` | crates/security/src/noise/handshake.rs:393-464 | some run, with sessions opened as the program opens them, brings both honest ends to a transport on one transcript |
| `HandshakeWitness.TwoCachesTakeOnePayload` | crates/security/src/noise/handshake.rs:100-158 | for any two caches and any capacity, a run in which sessions on them take one payload one after the other |
| `HandshakeWitness.BoundHoldsIffOneCache` | crates/security/src/noise/handshake.rs:30-83 | the replay bound holds between accepts on two caches, in all runs, exactly if they are one cache |
| `ReplayClock.BackToBack` | crates/security/src/noise/handshake.rs:55-83 | a new cache takes one key twice in a row exactly when the readings are more than 60 s apart |
| `ReplayClock.SubSecondReadingsLeaveAGap` | crates/security/src/noise/handshake.rs:55-83 | readings at which one payload is fresh twice and accepted twice in a row |
| `ReplayClock.TwiceInARowIffTicksAreFiner` | crates/security/src/noise/handshake.rs:55-83 | for a clock that divides the second into ticks, some payload can be taken twice in a row exactly when a tick is shorter than a second |
| `Framing.ByteStream.ReadExact` | crates/networking/src/protocol/codec.rs:59-69 | the next n bytes, or the error for the end or failure of the stream with nothing left |
| `Framing.Decode` | crates/networking/src/protocol/codec.rs:54-94 | one read of a frame: payload, oversized, closed or failed, and what is left of the stream |
| `Framing.PollDecode` | crates/networking/src/protocol/codec.rs:54-94 | the decoder as it is polled, resumed where it had to wait, holding what it has taken: one poll is one read of everything taken and arrived |
| `Framing.PollsAddUp` | crates/networking/src/protocol/codec.rs:54-94 | reading in one go and reading in pieces give the same result and leave the same bytes |
| `Framing.DecodeOnceMeans` | crates/networking/src/protocol/codec.rs:54-94 | a read yields a payload exactly when the stream starts with its frame within the limit, too large exactly when the prefix says so, and otherwise closes |
| `Framing.EncodeFailsIffOversized` | crates/networking/src/protocol/codec.rs:34-46 | encoding panics exactly on data over the limit, and is read back otherwise |
| `Framing.FrameLayout` | crates/networking/src/protocol/codec.rs:34-46 | four length bytes, high byte first, then the data |
| `Framing.DecodeFrame` | crates/networking/src/protocol/codec.rs:34-94 | a frame at the head of any stream is read back and the rest is untouched |
| `Framing.DecodeCutFrame` | crates/networking/src/protocol/codec.rs:54-94 | no strict prefix of a frame decodes |
| `Framing.WholeFramesBounds` | crates/networking/src/protocol/codec.rs:34-46 | the number of whole frames in a cut stream is the largest that fits |
| `Framing.DecodeAnyPrefix` | crates/networking/src/protocol/codec.rs:34-94 | a concatenation cut anywhere yields exactly the payloads whose frames are whole, then `ConnectionClosed` |
| `Framing.DecodeAllOfConcat` | crates/networking/src/protocol/codec.rs:34-94 | the concatenated encodings yield exactly the list, then `ConnectionClosed` |
| `Framing.ReencodeDecoded` | crates/networking/src/protocol/codec.rs:34-94 | any stream is the encoding of what was decoded from it, followed by the unfinished tail |
| `Channel.Transport.EncryptMessage` | crates/security/src/noise/transport.rs:47-65 | seals under the send counter, which moves exactly on success |
| `Channel.Transport.DecryptMessage` | crates/security/src/noise/transport.rs:76-94 | opens under the receive counter, which moves exactly on success |
| `Channel.EncryptAnswers` | crates/security/src/noise/transport.rs:47-65 | encryption succeeds exactly up to 65519 bytes and below the last counter value, with each error exactly |
| `Channel.DecryptAnswers` | crates/security/src/noise/transport.rs:76-94 | decryption succeeds exactly on a frame of at most 65535 bytes that opens under the counter, with each error |
| `Channel.EncodeNeverPanics` | crates/networking/src/protocol/codec.rs:34-46 | the size assertion never fires on what `encrypt` returned |
| `Channel.EncryptedConnection.Send` | crates/networking/src/tcp/connection.rs:56-87 | one send of the pipe: the frame of the sealed message goes out, or part of it if the stream fails; the counter has moved either way |
| `Channel.SendAnswers` | crates/networking/src/tcp/connection.rs:56-87 | a send answers Ok exactly when its plaintext joined what was sent and its whole frame the flight; exactly which sends do; any error leaves what was sent |
| `ChannelRuns.SentIsAnsweredOk` | crates/networking/src/tcp/connection.rs:56-87 | in every run what was sent is exactly the sends answered Ok, in order |
| `Channel.EncryptedConnection.PollRecv` | crates/networking/src/tcp/connection.rs:98-118 | one poll of the pipe: the next frame decrypted, an error, or waiting with the bytes in hand |
| `ChannelRuns.PollAnswers` | crates/networking/src/tcp/connection.rs:98-118 | a poll in any state: a plaintext exactly when the bytes start with a frame that opens to it, waiting exactly while no frame is whole and more may come |
| `Channel.EncryptedConnection.Recv` | crates/networking/src/tcp/connection.rs:98-118 | a receive left to run, however the bytes come in, is the polls and arrivals of the pipe |
| `Channel.EncryptedConnection.AbandonRecv` | crates/networking/src/tcp/connection_manager.rs:227-239 | dropping a receive loses the bytes it has taken |
| `Channel.EncryptedConnection.Close` | crates/networking/src/tcp/connection.rs:131-135 | closing ends the stream and changes nothing else of the pipe |
| `ChannelRuns.PollKeepsInv` | crates/networking/src/tcp/connection.rs:98-118 | while nothing is lost, a poll yields the next plaintext, waits, or reports the end of a closed stream after the last |
| `ChannelRuns.RunKeepsInv` | crates/networking/src/tcp/connection.rs:56-118 | in every interleaving of sends, failed writes, arrivals, polls and a close, with receives abandoned only empty-handed, the bytes from hand to flight are exactly the outstanding frames |
| `ChannelRuns.ReceivedInOrder` | crates/networking/src/tcp/connection.rs:56-118 | in every such run what was received is a prefix of what was sent, the counters differ by the outstanding frames, and no poll errs before the end of a closed stream |
| `ChannelRuns.DrainDeliversAll` | crates/networking/src/tcp/connection.rs:98-118 | once the bytes have arrived, that many polls deliver the whole list, also after a failed write |
| `ChannelRuns.EverythingSentIsReceived` | crates/networking/src/tcp/connection.rs:56-118 | every list sent in such a run comes out whole and in order |
| `ChannelRuns.RunConserves` | crates/networking/src/tcp/connection.rs:56-118 | in every run at all, bytes received, in hand, arrived, in flight and lost are no more than were written |
| `ChannelRuns.LossIsForGood` | crates/networking/src/protocol/codec.rs:54-94 | after losing more bytes than a failed write left behind, no continuation delivers what was sent |
| `ChannelRuns.WholeIffNeverAbandonedWithBytesInHand` | crates/networking/src/tcp/connection_manager.rs:226-253 | in every run without a failed write: order, no error, and delivery still possible, exactly when no receive was abandoned with bytes in hand |
| `ChannelRuns.CutShortIsLost` | crates/networking/src/tcp/connection_manager.rs:226-253 | for every cipher, message and cut inside its frame, abandoning the receive loses the message for good |
| `ChannelRuns.AbandoningLeadsToAnError` | crates/networking/src/tcp/connection_manager.rs:226-253 | a run in which the next receive reads its length in mid-frame and fails |
| `ChannelRuns.FailedWriteCanMakeUpForALoss` | crates/networking/src/tcp/connection_manager.rs:226-253 | the equivalence needs its premise: a run with a failed write in which a loss is made up for |
| `ChannelRuns.ReceiveIsARun` | crates/networking/src/tcp/connection.rs:98-118 | a receive left to run abandons nothing |
| `ChannelRuns.ReceiveYieldsNext` | crates/networking/src/tcp/connection.rs:98-118 | a receive left to run yields the next plaintext however the bytes trickle in, and nothing else while messages are outstanding |
| `ConnectionManager.Manager.constructor` | crates/networking/src/tcp/connection_manager.rs:78-87 | no peers, no handles, nobody trusted |
| `ConnectionManager.Manager.Add` | crates/networking/src/tcp/connection_manager.rs:125-134 | adds or updates a peer, unless it is new and 200 are known |
| `ConnectionManager.Manager.TrustPeers` | crates/networking/src/tcp/connection_manager.rs:137-141 | trust only grows |
| `ConnectionManager.Manager.BeginConnect` | crates/networking/src/tcp/connection_manager.rs:165-172 | the look-up section of a connect call |
| `ConnectionManager.Manager.RequireTrust` | crates/networking/src/tcp/connection_manager.rs:174-177 | the trust section |
| `ConnectionManager.Manager.Spawn` | crates/networking/src/tcp/connection_manager.rs:179-196 | the limit check, after which the connect is pending |
| `ConnectionManager.Manager.RunTask` | crates/networking/src/tcp/connection_manager.rs:196-223 | the task stores its handle only with a key and a connection |
| `ConnectionManager.Manager.EndLoop` | crates/networking/src/tcp/connection_manager.rs:255-257 | the end of a loop removes the handle of its fingerprint, whoever stored it |
| `ConnectionManager.Manager.DropHandle` | crates/networking/src/tcp/connection_manager.rs:285-290 | disconnecting removes the handle and nothing else |
| `ConnectionManager.Manager.CleanupStale` | crates/networking/src/tcp/connection_manager.rs:311-333 | exactly the peers last seen less than five minutes ago, to the nanosecond, stay; handles are untouched |
| `ConnectionManager.StepAnswers` | crates/networking/src/tcp/connection_manager.rs:125-186 | when each step of a connect call, and each discovered peer, is refused and with which error, and that a refusal leaves no trace |
| `ConnectionManager.KnownIffAddedAndFresh` | crates/networking/src/tcp/connection_manager.rs:125-333 | over every run a peer is known exactly if some step added it, none replaced it, and no later clean-up found it five minutes old |
| `ConnectionManager.ActiveBounded` | crates/networking/src/tcp/connection_manager.rs:161-266 | in every interleaving, at most 9 handles plus the largest number of simultaneously pending connects |
| `ConnectionManager.StepSound` | crates/networking/src/tcp/connection_manager.rs:161-333 | every step keeps: handles belong to running calls, these are trusted and keyed, at most 200 peers |
| `ConnectionManager.RunSound` | crates/networking/src/tcp/connection_manager.rs:125-333 | so does every interleaving |
| `ConnectionManager.CallsWereLookedUp` | crates/networking/src/tcp/connection_manager.rs:165-172 | each call carries exactly what its own look-up found at some step of the run, when its peer had no handle, and has been there since |
| `ConnectionManager.ActiveIsTrustedAndKeyed` | crates/networking/src/tcp/connection_manager.rs:161-266 | each active fingerprint is trusted, and its task's own connect call found a key for it |
| `ConnectionManager.HandleKeptIffNotEvicted` | crates/networking/src/tcp/connection_manager.rs:226-290 | while a loop runs it keeps its handle exactly if no disconnect, rival connect or rival end removes it |
| `ConnectionManager.LoopsBoundedWithoutEvictions` | crates/networking/src/tcp/connection_manager.rs:161-266 | without such evictions the bound on handles is a bound on running loops |
| `ConnectionManager.OrderlyRun` | crates/networking/src/tcp/connection_manager.rs:161-266 | in runs without disconnects and without two connects to one peer on their way, no peer has two calls and no running loop loses its handle |
| `ConnectionManager.OrderlyLoopsAreBounded` | crates/networking/src/tcp/connection_manager.rs:161-266 | so in such runs running loops are bounded as handles are |
| `ConnectionManager.LoopsOutliveHandles` | crates/networking/src/tcp/connection_manager.rs:226-290 | for every n there is a run with n loops running and no handle |
| `ConnectionLimit.BoundIsAttained` | crates/networking/src/tcp/connection_manager.rs:179-223 | for every n from 1, as far as there are fingerprints, a run with at most n connects pending has exactly 9 + n active connections |
| `ConnectionLimit.LimitHoldsIffConnectsDoNotOverlap` | crates/networking/src/tcp/connection_manager.rs:179-223 | all runs with at most n pending connects stay within ten active exactly when n is at most one |
| `RateLimit.RateLimiter.constructor` | crates/application/src/rate_limit.rs:44-50 | no entries under the given configuration |
| `RateLimit.RateLimiter.Check` | crates/application/src/rate_limit.rs:55-70 | the pruning loop, the count and the push are one step on the map |
| `RateLimit.RateLimiter.Reset` | crates/application/src/rate_limit.rs:73-76 | forgets the key and no other |
| `RateLimit.RunIsFaithful` | crates/application/src/rate_limit.rs:55-76 | after every run, whatever the order of its readings, no check at or after the latest can tell a stored list from the full history of its key |
| `RateLimit.VerdictIsWindowCount` | crates/application/src/rate_limit.rs:55-70 | a check behind no earlier one is allowed exactly when fewer than the maximum of the unpruned history lie in the last window |
| `RateLimit.NeverMoreThanMaxPerWindow` | crates/application/src/rate_limit.rs:55-76 | with checks applied at most d behind, every half-open interval of the window length less d holds at most the maximum of allowed checks since the last reset; in order, d is 0 |
| `RateLimit.LateCheckExceeds` | crates/application/src/rate_limit.rs:55-70 | a run with one check applied one instant late, for every maximum from two, that puts one too many into a window |
| `RateLimit.WindowBoundHoldsIff` | crates/application/src/rate_limit.rs:55-76 | whole windows hold at most the maximum in all runs with lag d exactly if d is 0, the maximum is at most one, or the window is empty |
| `RateLimit.RefusedExactlyAtMax` | crates/application/src/rate_limit.rs:55-70 | refused exactly when the maximum lies in the last window |
| `RateLimit.OtherKeysDoNotMatter` | crates/application/src/rate_limit.rs:55-76 | a key's list and history are those of the run of its own operations alone |
| `Message.MessageBox.Transition` | crates/domain/src/message/message.rs:213-231 | a valid transition sets state and timestamp; a rejected one changes nothing |
| `Message.SuccessesBounded` | crates/domain/src/message/message_state.rs:91-127 | a run with r resets has at most 5r+4 successful transitions |
| `Message.BoundIsAttained` | crates/domain/src/message/message_state.rs:91-127 | for every r some run attains it |
| `Message.FrozenIffFinal` | crates/domain/src/message/message_state.rs:59-127 | a message can never change again exactly when it is terminal and not a retryable failure |
| `Message.ArrowsAre` | crates/domain/src/message/message_state.rs:91-127 | which transitions succeed, at every time: one step ahead or a failure from a state that is not terminal, and back from a retryable failure |
| `Message.AttemptIsPath` | crates/domain/src/message/message_state.rs:91-127 | the states since the last reset are a path of the diagram to the current state |
| `Message.PathShape` | crates/domain/src/message/message_state.rs:91-127 | along such a path each state that is not a failure sits at its own position, and failures come last |
| `Message.DeliveredWasSent` | crates/domain/src/message/message_state.rs:91-127 | a delivered or read message went through exactly Sending and Sent (and Delivered) since its last reset |
| `Message.TimesStayInOrder` | crates/domain/src/message/message.rs:213-269 | every run keeps the times that the current state vouches for in order |
| `Message.TimestampsConsistent` | crates/domain/src/message/message.rs:213-269 | created, sent, delivered and read times are in order and agree with the state, whatever earlier attempts left behind |
| `Message.TransitionRecords` | crates/domain/src/message/message.rs:213-231 | a transition keeps the letter and changes exactly the time field of the state it enters |
| `Message.TimesAreOfThisAttempt` | crates/domain/src/message/message.rs:213-269 | in every run the letter stays, and the times are those of the very states since the last reset |
| `Message.BuiltRecipients` | crates/domain/src/message/message.rs:106-150 | a built message has 1 to 50 recipients, each once, in byte order, exactly those given |
| `Message.RecipientsCanonical` | crates/domain/src/message/message.rs:106-150 | the list depends only on the set of recipients given |
| `Message.BuildAnswers` | crates/domain/src/message/message.rs:106-150 | which builders build, and that the result is a pending letter with the given sender, content, type and time |
| `SendMessage.RetryLoop` | crates/application/src/usecases/send_message.rs:193-217 | the loop makes the attempts of its specification and leaves only through an accepted or the last refused send |
| `SendMessage.SendWithRetry` | crates/application/src/usecases/send_message.rs:171-220 | message, result and effects of a delivery, for every behaviour of the ports |
| `SendMessage.Execute` | crates/application/src/usecases/send_message.rs:75-142 | validation, rate limit, encryption, save, delivery, save: result, limiter and effects in order |
| `SendMessage.RefusedRequests` | crates/application/src/usecases/send_message.rs:75-165 | which requests are invalid or rate limited, exactly, and that these leave no effect |
| `SendMessage.RateKeyInjective` | crates/application/src/usecases/send_message.rs:86-90 | different recipients never share a limit |
| `SendMessage.OtherRecipientsKeepTheirLimit` | crates/application/src/usecases/send_message.rs:86-90 | a request leaves the stored attempts of every other recipient as they were |
| `SendMessage.ExecutionCarriesRequested` | crates/application/src/usecases/send_message.rs:92-125 | only what encryption returned for the request's content is stored or sent, in a letter from us to the recipient alone, of the requested type |
| `SendMessage.ExecutionAnswers` | crates/application/src/usecases/send_message.rs:92-142 | the answer and each error exactly by encryption, size and saves; the last save is of the message returned |
| `SendMessage.AttemptsSummary` | crates/application/src/usecases/send_message.rs:193-217 | one send per attempt up to the first accepted or the last; the sleeps add up to a difference of powers of two |
| `SendMessage.AttemptsAlternate` | crates/application/src/usecases/send_message.rs:193-217 | the attempts one by one: a send, a sleep of 500 ms doubled each time, and so on up to the last send |
| `SendMessage.DeliveryOrder` | crates/application/src/usecases/send_message.rs:177-217 | resolving, then connecting, then the attempts, each only after the one before |
| `SendMessage.DeliveryErrors` | crates/application/src/usecases/send_message.rs:171-220 | how a delivery fails, by state, address, connection and sends |
| `SendMessage.FirstAcceptedIsFirst` | crates/application/src/usecases/send_message.rs:193-217 | the attempt counted to is the first that the network accepts |
| `SendMessage.DeliveryOutcome` | crates/application/src/usecases/send_message.rs:171-220 | at most 4 sends, 500(2^k-1) ms of sleep, and Sent, Failed(retryable) or Sending exactly as the ports behaved |
| `SendMessage.WriteThrough` | crates/application/src/usecases/send_message.rs:75-142 | wherever an execution stops or a save fails, nothing was sent before it was stored and no stored copy says Sent without an accepted send |
| `SecureStore.WriteIdentity` | crates/security/src/storage/secure_store.rs:48-55 | filling the 128-byte buffer yields the four keys in order |
| `SecureStore.IdentityLayout` | crates/security/src/storage/secure_store.rs:48-55 | the 128 bytes by position |
| `SecureStore.BlobParsing` | crates/security/src/storage/secure_store.rs:114-150 | a serialized blob parses back whatever follows it, and no strict prefix of it parses |
| `SecureStore.BlobSerializing` | crates/security/src/storage/secure_store.rs:114-150 | whatever parses re-serializes to the bytes parsed |
| `SecureStore.BlobLayout` | crates/security/src/storage/secure_store.rs:114-122 | the blob by position, its length with the high byte first |
| `SecureStore.DecryptEncrypted` | crates/security/src/storage/secure_store.rs:262-307 | decryption inverts encryption, also with trailing bytes up to the size limit; the file is 193 bytes; a cut file is storage damage |
| `SecureStore.BlobMeans` | crates/security/src/storage/secure_store.rs:114-150 | a blob is read exactly where the data begins with one |
| `SecureStore.DecryptAnswers` | crates/security/src/storage/secure_store.rs:286-307 | keys exactly when a version-1 blob opens to their own 128 bytes, publics included; a blob the cipher refuses is a wrong passphrase; each other error exactly |
| `SecureStore.DamagedData` | crates/security/src/storage/secure_store.rs:286-290 | data that is too long or begins with no blob is storage damage |
| `SecureStore.Save` | crates/security/src/storage/secure_store.rs:234-259 | the disk states a save goes through, for every way it can end |
| `SecureStore.CreateNew` | crates/security/src/storage/secure_store.rs:215-222 | an existing identity is never touched; otherwise as a save |
| `SecureStore.CleanupTempFiles` | crates/security/src/storage/secure_store.rs:181-194 | exactly the removable temp files go |
| `SecureStore.SaveIsAtomic` | crates/security/src/storage/secure_store.rs:234-259 | after a crash at any step and any clean-up, `load` gives exactly what it gave before or exactly the new keys |
| `SecureStore.ReopeningKeepsIdentityIff` | crates/security/src/storage/secure_store.rs:181-194 | clean-up keeps a stored identity exactly if the store's own name is not a temp name |
| `SecureStore.EventKeepsCommitted` | crates/security/src/storage/secure_store.rs:181-259 | each save, cut short anywhere, and each reopening keeps the last committed keys loadable |
| `SecureStore.LastCommittedIsLoaded` | crates/security/src/storage/secure_store.rs:181-259 | over every life of the store, `load` returns the keys of the last save that reached its rename |
| `SecureStore.EveryPassphraseOverEveryLife` | crates/security/src/storage/secure_store.rs:181-307 | over every life of a new store and for every passphrase: the keys of the last committed save exactly if the passphrase opens it to them, and a wrong passphrase is told so |
| `Fingerprint.FilterDigits` | crates/domain/src/identity/fingerprint.rs:57-57 | the loop keeps the hexadecimal digits in order |
| `Fingerprint.FillBytes` | crates/domain/src/identity/fingerprint.rs:64-74 | the loop fills the 20 bytes that 40 digits denote |
| `Fingerprint.ParseHex` | crates/domain/src/identity/fingerprint.rs:56-76 | the parser is its specification, with its error case |
| `Fingerprint.Format` | crates/domain/src/identity/fingerprint.rs:94-104 | the printing loop yields the dashed groups of four |
| `Fingerprint.DecodeEncoded` | crates/networking/src/udp/beacon.rs:44-131 | hexadecimal decoding inverts encoding |
| `Fingerprint.FoldDecides` | crates/domain/src/identity/fingerprint.rs:56-76 | digit strings denote the same bytes exactly when they agree up to case |
| `Fingerprint.FromHexDependsOnFoldedDigits` | crates/domain/src/identity/fingerprint.rs:56-76 | parsing succeeds exactly with 40 digits, and two texts parse alike exactly when their case-folded digits agree |
| `Fingerprint.PrintedFormsParse` | crates/domain/src/identity/fingerprint.rs:56-136 | the dashed form, 49 characters long, and the serialized form both parse back |
| `Fingerprint.FormattedAt` | crates/domain/src/identity/fingerprint.rs:94-104 | the printed form character by character: upper-case digits of the half-bytes, a dash after every four |
| `Beacon.CreatedVerifies` | crates/networking/src/udp/beacon.rs:44-131 | a created beacon verifies at exactly the times within 60 s of its creation, for every name, port and key, up to the end of the u64 range, in builds with and without overflow checks |
| `Beacon.CreatedShaped` | crates/networking/src/udp/beacon.rs:44-81 | created beacons have 64-character keys and 49-character fingerprints |
| `Beacon.CreatedCarries` | crates/networking/src/udp/beacon.rs:44-81 | a created beacon says the name, port and time it was given, and its texts decode to the keys, their fingerprint and the signature |
| `Beacon.VerifiedIff` | crates/networking/src/udp/beacon.rs:84-131 | which beacons verify, exactly: time, key texts, claimed fingerprint and signature |
| `Beacon.RefusedBecause` | crates/networking/src/udp/beacon.rs:84-131 | why a beacon is refused: the first check that fails |
| `Beacon.SignedBytesInjective` | crates/networking/src/udp/beacon.rs:134-144 | for beacons of that shape the signed bytes determine every signed field |
| `Beacon.VerifiedInjective` | crates/networking/src/udp/beacon.rs:84-144 | two verified beacons with the same signed bytes agree in every signed field, however their fingerprints are written |
| `Beacon.NeverAnIdentityPayload` | crates/networking/src/udp/beacon.rs:134-144 | what a version-1 beacon signs is never what an identity payload signs |
| `Beacon.SignedLayout` | crates/networking/src/udp/beacon.rs:134-144 | the signed bytes by position |
| `PeerStatus.EarlierRefreshesDoNotMatter` | crates/domain/src/peer/peer_status.rs:71-111 | refreshing twice at t forgets all earlier refreshes, in whatever order their times were; the last-seen time is kept and Blocked is fixed |
| `PeerStatus.OneRefreshIsOneStep` | crates/domain/src/peer/peer_status.rs:71-93 | a single refresh moves by one step at most, exactly past 30 s or 330 s |

## Left out

- Windows, desktop wiring and notifications (`crates/ui`, `apps/desktop`, `crates/notifications`): rendering and operating-system calls.
- The SQL persistence layer and `ReceiveMessageUseCase`, whose path past `mark_delivered` is not reachable from a new message.
- Sockets, mDNS, the UDP listener, the TCP accept loop and the heartbeat; connect, discover and reset use cases.
- The insides of X25519, Ed25519, BLAKE3, ChaCha20-Poly1305, Argon2 and the Noise library, which are functions with stated assumptions; key-derivation and cipher-construction errors.
- Constant-time comparison, zeroization, memory locking and file permissions.
- Timeouts and cancellation of handshakes and connections, beyond that a session or an execution may stop after any step; mutex poisoning.
- `verify_unbound`, which the handshake does not call; `set_verified_remote` is modelled only where the handshake calls it.
- JSON forms of beacons and messages, message identifiers, and the preview in the response of `execute`.
- ConnectionManager.Manager.BeginConnect: statements between two awaits are one step, so another thread's change between the two look-ups of a connect call, or between the two halves of `add_peer`, is not modelled; address and port are one `endpoint`.
- ConnectionManager.Manager.EndLoop: why a loop ends (its connection, its receiver, shutdown) is left open, and so is when.
- ChannelRuns.WholeIffNeverAbandonedWithBytesInHand: is for runs without a failed write, because after one it is false (`FailedWriteCanMakeUpForALoss`); there the two directions that hold are stated apart (`EverythingSentIsReceived`, `LossIsForGood`). A connection reset that discards bytes already written is not modelled.
- RateLimit.RateLimiter.Check: a clock reading smaller than the window, on which the subtraction of the source would panic, is an ordinary reading here.
- SecureStore.Save: a rename is atomic and durable in the order of the calls; the source does not flush, and power loss that reorders writes is not modelled. Directory creation is assumed to have happened.
- ReplayCache.NonceCache.CheckAndInsert: one reading of the monotonic clock serves the whole call, while the source reads it again for each entry it evicts.
- SendMessage.Execute: concurrent executions share only the rate limiter; each has its own message, so one execution is modelled at a time.

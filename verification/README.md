# ssh-transport: a verified model

This Dafny project models the protocol logic of the `ssh-transport` crate and the script that builds
security-key lines for its server matrix, and proves properties of the model. `dafny verify
dfyconfig.toml` checks all of it.

The crate drives an SSH library. Here that library, the servers, the host-key verifier and the callers are an
environment that may do anything: a `Script` of channel messages with their waiting times, an `Oracle` that
decides every outcome of a dial, a list of `Step`s that any number of threads and tasks take in any order, a
server that answers reads with any permitted chunk. The theorems hold for all of them.

| file | what it models |
|---|---|
| `Bytes.dfy`, `Base64.dfy`, `KeyBlob.dfy` | `known_hosts.rs`: base64 against the bit stream of RFC 4648, fingerprints, length-prefixed key blobs (section 5 of RFC 4251) and the plausibility test |
| `SkPubkey.dfy` | `make-sk-pubkey.sh` as a pipeline of string functions |
| `MessageStream.dfy`, `Exec.dfy`, `Consumers.dfy`, `Utf8.dfy` | one channel's messages and their four readers: `exec`, `pump`, `read`, the banner probe; and what their UTF-8 test accepts |
| `WriteHalf.dfy` | the two mutexes of a channel: concurrent `write`, `eof`, `resize`, `disconnect`, `read` and the close task |
| `Dial.dfy`, `DialSafety.dfy`, `DialOutcome.dfy` | `connect_inner` over a jump chain of any length: its run, what every run keeps, and its outcome in terms of what servers and verifier answered |
| `Session.dfy`, `SessionSafety.dfy` | the three mutexes of a session, `disconnect`, the teardown task, and dial plus teardown |
| `SessionProgress.dfy`, `SessionCalls.dfy` | what the calls and the teardown can always bring to an end; the methods and the runs they are |
| `ForwardRouter.dfy` | the queue of inbound forwards, its senders, and the dispatch loop |
| `Sftp.dfy` | streaming file handles over a server that follows sections 6.3 and 6.4 of draft-ietf-secsh-filexfer-02 |

The concurrent parts are step machines: a state, the steps a thread or task may take (`Enabled`, `Next`), and an
inductive invariant. The classes beside them are the same operations as the source writes them, and lemmas
(`CallIsARun`, `CloserIsARun`, `DisconnectIsARun`, `BorrowIsARun`, `TeardownIsARun`) show that each task, and each
call that meets no other, is a run of its machine.

## Assumptions about the environment

- A connection exists only after the verifier answered true for the key it presented, and a false answer comes
  back as an unknown-key error.
- Dropping a connection's handle releases the connection. A bye that is confirmed or times out ends it.
- A write that reports success was applied in full; one that fails was applied up to some prefix.
- The forward queue is first in, first out; its receiver ends when it is empty and has no sender.
- A message that arrives after exactly 300 ms is received; a longer wait times out.
- SHA-256 is any function from byte strings to 32 bytes.

## Where the code and its comments differ

- `eof` is described as idempotent. It does not take the write half, so while the half is in place every call
  sends another CHANNEL_EOF (`WriteHalf.EofIsSentEachTime`); a second call changes nothing exactly when the half
  was already taken (`WriteHalf.EofIsIdempotentExactly`).
- An empty chunk is described as end of file. A read of zero bytes is empty anywhere
  (`Sftp.RemoteFile.Read`), and an empty data message ends a channel reader's loop early
  (`Consumers.ReadAgreesExactly` says exactly when this loses bytes, `Consumers.EmptyDataEndsReading` gives a stream).
- `exec` is described as collecting stragglers. It loses those that come after a wait of over 300 ms
  (`Exec.LosesNothingExactly`, `Exec.LateDataIsLost`).
- A resumption is told not to truncate, but `open_write_at` accepts an offset together with truncation. The
  result is then right exactly when the lost prefix was all zeroes and some of the payload was left to send, or
  the payload is empty (`Sftp.TruncatingResume`, `Sftp.TruncationLoses`).
- `raw_blob` keeps only the low 32 bits of a length (`KeyBlob.RawBlobPlausible`, `KeyBlob.LongNameIsLost`).

## Model

| member | source | states |
|---|---|---|
| Base64.Base64Encode | ssh-transport/src/known_hosts.rs:46-70 | The chunk loop returns the RFC 4648 encoding: the zero-padded bit stream regrouped by sixes, padded to quanta of four; 4*ceil(n/3) characters |
| Base64.EncodeChunk | ssh-transport/src/known_hosts.rs:51-67 | Four table lookups, with '=' for missing bytes, give the chunk's quantum |
| Base64.TableIsAlphabet | ssh-transport/src/known_hosts.rs:47 | The lookup table has 64 entries and spells the RFC's alphabet |
| Base64.QuantumIsEncoding | ssh-transport/src/known_hosts.rs:51-67 | Shift-and-mask fields of a chunk of one, two or three bytes are its bit groups |
| Base64.EncodeAppend | ssh-transport/src/known_hosts.rs:49-67 | encode(a+b) = encode(a)+encode(b) whenever 3 divides the length of a |
| Base64.EncodeLength | ssh-transport/src/known_hosts.rs:48 | The reserved capacity, 4*ceil(n/3), is the exact length |
| Base64.TestVectors | ssh-transport/src/known_hosts.rs:46-70 | The test vectors of RFC 4648, and one with the letters + and / |
| Base64.DecodeEncode | ssh-transport/src/known_hosts.rs:45-70 | The canonical decoder inverts the encoder on every byte string |
| Base64.EncodeDecode | ssh-transport/src/known_hosts.rs:45-70 | Whatever the canonical decoder accepts is the encoding of its result |
| Base64.TrimmedEncoding | ssh-transport/src/known_hosts.rs:15 | Trimming '=' removes the padding and only that; ceil(4n/3) letters remain |
| Base64.TrimmedInjective | ssh-transport/src/known_hosts.rs:11-16 | Trimmed encodings are equal exactly when the bytes are, for all lengths |
| Base64.FingerprintShape | ssh-transport/src/known_hosts.rs:11-16 | Every fingerprint is SHA256: and 43 characters without '=' |
| Base64.FingerprintDecodes | ssh-transport/src/known_hosts.rs:11-16 | After SHA256: and with one = restored, a fingerprint decodes to the digest |
| Base64.FingerprintsAgree | ssh-transport/src/known_hosts.rs:11-16 | Two fingerprints are equal exactly when the digests are |
| KeyBlob.PlausibleMeansNamed | ssh-transport/src/known_hosts.rs:25-43 | The test equals a byte predicate on the first string; the UTF-8 and minimum-length checks are redundant |
| KeyBlob.PlausibleInBytes | ssh-transport/src/known_hosts.rs:25-43 | The same test byte by byte: a big-endian length that fits, bytes from 32 to 126, and one of four spelled-out beginnings |
| KeyBlob.PlausibleIgnoresTail | ssh-transport/src/known_hosts.rs:25-43 | Bytes after the first string never change the answer |
| KeyBlob.EncodeRawBlob | ssh-transport/src/known_hosts.rs:95-102 | The push loop yields each part with its 32-bit length, in order |
| KeyBlob.RawBlobLayout | ssh-transport/src/known_hosts.rs:95-102 | Each part stands in order behind its length modulo 2^32 in four big-endian bytes |
| KeyBlob.RawBlobPlausible | ssh-transport/src/known_hosts.rs:25-43 | For parts of any length: plausible exactly when the first part, cut at its truncated length, is a printable name of a known family |
| KeyBlob.RawBlobPlausibleShort | ssh-transport/src/known_hosts.rs:95-102 | Below 4 GiB: plausible exactly when the first part is such a name |
| KeyBlob.LongNameIsLost | ssh-transport/src/known_hosts.rs:98 | A well-named part of 4 GiB whose length field truncates to zero is not plausible |
| KeyBlob.ReadRawBlobExactly | ssh-transport/src/known_hosts.rs:95-102 | Reading an encoding gives the parts back exactly when every part is under 4 GiB |
| KeyBlob.RawBlobOfRead | ssh-transport/src/known_hosts.rs:95-102 | Encoding what was read gives the blob back |
| SkPubkey.PackHex | tools/sshd-matrix/make-sk-pubkey.sh:19 | Packing the hex of bytes gives the bytes |
| SkPubkey.HexIsLowerCase | tools/sshd-matrix/make-sk-pubkey.sh:8-16 | The hex digits are 0 to 9 and a to f |
| SkPubkey.HexNumberIsBe32 | tools/sshd-matrix/make-sk-pubkey.sh:15 | For every 32-bit length the eight digits are its four wire bytes in hex |
| SkPubkey.KeySlice | tools/sshd-matrix/make-sk-pubkey.sh:8-10 | Columns 39 to 102 of the blob's hex are exactly the 32 key bytes |
| SkPubkey.BlobHexIsWireBlob | tools/sshd-matrix/make-sk-pubkey.sh:13-18 | The concatenated hex is the wire blob of type, key and application |
| SkPubkey.PartsSpelled | tools/sshd-matrix/make-sk-pubkey.sh:11-12 | The parts of the blob, character by character |
| SkPubkey.SkLineIsWellFormed | tools/sshd-matrix/make-sk-pubkey.sh:8-20 | For every 32-byte key the line is the type, the base64 and the comment; the base64 decodes to a blob that reads back as type, key and application and is plausible |
| MessageStream.Stream.Wait | ssh-transport/src/lib.rs:476-489 | One wait: the next message, the end, a timeout that consumes nothing, or for ever |
| MessageStream.BytesOfOne | ssh-transport/src/lib.rs:492 | A Data message contributes its bytes; ExtendedData only to the text of read and pump |
| MessageStream.NoBytesOfOne | ssh-transport/src/lib.rs:491-496 | No other message contributes bytes |
| Utf8.ValidExactly | ssh-transport/src/lib.rs:498 | The UTF-8 test accepts exactly the concatenations of the RFC 3629 encodings of Unicode scalar values |
| Utf8.ExamplesOfRfc | ssh-transport/src/lib.rs:498 | Those encodings on examples of one to four bytes |
| Exec.CollectOutput | ssh-transport/src/lib.rs:466-498 | The loop returns the Data (never ExtendedData) before the first of Close, end of stream, or a wait over 300 ms after the status |
| Exec.OutputExactly | ssh-transport/src/lib.rs:466-498 | On every stream on which exec returns: it stops at the first Close, message over 300 ms late after the status, or end, and returns the Data before as they are if they are UTF-8 text, an error if not |
| Exec.HangsExactly | ssh-transport/src/lib.rs:476-489 | It waits for ever exactly on a silent stream without Close and without status |
| Exec.LosslessOutput | ssh-transport/src/lib.rs:467-498 | Whenever exec returns and the timeout hides no bytes, it returns exactly the Data bytes before the Close, the end or the silence if they are UTF-8 text, and the error if not |
| Exec.CalmIsLossless | ssh-transport/src/lib.rs:467-475 | No wait over 300 ms after the status, on a stream that closes or ends, is enough for that |
| Exec.SilenceIsLossless | ssh-transport/src/lib.rs:471-475 | So is silence after the last Data on a stream that never closes: the quiet mode then returns everything |
| Exec.LosesNothingExactly | ssh-transport/src/lib.rs:467-489 | Whenever exec returns, it has every Data byte before the Close exactly when no Data bytes follow, before the Close, a wait of over 300 ms that follows the status |
| Exec.LateDataIsLost | ssh-transport/src/lib.rs:476-489 | A stream that loses its output: the status, 301 ms of silence, then Data and Close |
| Exec.DataAtTheLimit | ssh-transport/src/lib.rs:476-489 | Data that comes after exactly 300 ms is returned |
| Exec.OnlyDataMatters | ssh-transport/src/lib.rs:467-498 | Any two lossless streams with equal Data bytes give equal results, including the UTF-8 decision |
| Exec.StatusMayMove | ssh-transport/src/lib.rs:467-470 | Moving the exit status across any other messages, later on a stream that loses nothing or earlier if nothing it passes waits over 300 ms, leaves both streams lossless and the result unchanged |
| Exec.ChunkingIsInvisible | ssh-transport/src/lib.rs:491-498 | Re-cutting Data bytes anywhere in a lossless stream leaves it lossless and the result unchanged; the new pieces may take any time before the status and up to 300 ms after it |
| Consumers.Pump | ssh-transport/src/lib.rs:402-434 | The sink receives the image of what precedes the Close, then Closed, Died, or nothing on a silent stream |
| Consumers.EventsMatchMessages | ssh-transport/src/lib.rs:402-434 | The events before the terminal one report the Data, ExtendedData and ExitStatus messages before the Close one for one and in order, each with its own data or code |
| Consumers.TerminalComesLast | ssh-transport/src/lib.rs:79-94 | A terminal event is the last one; Closed exactly when a Close is consumed, Died exactly when the stream ends first |
| Consumers.PumpDelivers | ssh-transport/src/lib.rs:407-416 | The Data events carry all bytes of both kinds before the Close, in order |
| Consumers.EofIsInvisible | ssh-transport/src/lib.rs:420 | An Eof anywhere changes nothing |
| Consumers.Read | ssh-transport/src/lib.rs:148-163 | One read skips statuses and other messages and returns the next data, or empty at Eof, Close or the end |
| Consumers.ReadUntilEmpty | ssh-transport/src/lib.rs:133-146 | Reading until the first empty chunk collects the bytes before the first empty answer |
| Consumers.ReadAgreesExactly | ssh-transport/src/lib.rs:143-163 | Readers get the bytes that pump delivers exactly when no message that reads as empty stands, before the Close, in front of one with bytes |
| Consumers.EmptyDataEndsReading | ssh-transport/src/lib.rs:148-163 | A stream with an empty data message on which readers get nothing and pump delivers a byte |
| Consumers.CollectBanner | ssh-transport/src/lib.rs:578-591 | The probe returns the Data before its first stop |
| Consumers.BannerExactly | ssh-transport/src/lib.rs:578-591 | On every stream on which the probe returns: it stops once it has four Data bytes, at the first Close or Eof, or at the end, and returns the Data so far if they are UTF-8 text, an error if not |
| Consumers.BannerHangsExactly | ssh-transport/src/lib.rs:578-590 | The probe waits for ever exactly on a silent stream with no Close, no Eof and fewer than four Data bytes |
| Consumers.BannerIsShortestPrefix | ssh-transport/src/lib.rs:578-590 | Whenever the probe returns on a stream with no empty data and no data after Eof, its result is the shortest whole-chunk prefix of at least four bytes, or all Data before the Close or the end |
| Consumers.ConsumersAgree | ssh-transport/src/lib.rs:402-434 | On a stream with no empty data and no data after Eof, closed, broken off or silent, read and pump agree; exec, when the timeout hides nothing, returns those bytes without the ExtendedData; the banner is the shortest prefix of that with four bytes, or all of it |
| WriteHalf.Channel.Send | ssh-transport/src/lib.rs:165-187 | A successful write puts its packets, and so its bytes, on the wire in order, a resize its columns and rows, an eof one Eof; a failed call a prefix of that; refused once the half is taken |
| WriteHalf.Channel.Disconnect | ssh-transport/src/lib.rs:191-198 | Takes the half once and spawns the close task with it |
| WriteHalf.Channel.RunCloser | ssh-transport/src/lib.rs:193-196 | The close task attempts Eof then Close and ignores failures |
| WriteHalf.InvNext | ssh-transport/src/lib.rs:137-198 | Every step of any thread or the close task keeps the invariant: mutual exclusion on both mutexes, no sender without the half, wire = calls in mutex order + close task |
| WriteHalf.WireShape | ssh-transport/src/lib.rs:165-198 | In every interleaving the wire is the calls' messages, contiguous and in mutex order, then the close task's; only the close task sends Close |
| WriteHalf.EndsInOnePair | ssh-transport/src/lib.rs:191-198 | After an undisturbed close task the wire ends in exactly one Eof, Close pair |
| WriteHalf.TakenBodyIsFrozen | ssh-transport/src/lib.rs:192 | After the take no caller's message reaches the wire |
| WriteHalf.NothingAfterClose | ssh-transport/src/lib.rs:191-198 | Nothing follows the Close, however the run continues |
| WriteHalf.CallsAreSerial | ssh-transport/src/lib.rs:166-183 | A successful call sent everything; a call is refused, sending nothing, exactly when a disconnect preceded it |
| WriteHalf.CallsSendTheirOwn | ssh-transport/src/lib.rs:165-187 | The same of every call in every interleaving |
| WriteHalf.WireCarriesWrites | ssh-transport/src/lib.rs:165-187 | In every interleaving the data bytes on the wire are, in mutex order, what the writes handed over, all of it for those that succeeded |
| WriteHalf.OneByOne | ssh-transport/src/lib.rs:165-173 | A data message carries its bytes and no other message carries any |
| WriteHalf.ReadersNeverBlockWriters | ssh-transport/src/lib.rs:137-187 | Whatever threads wait or hold the mutex in read, every call begun on the write side can run to its end by writers' steps alone, and no reader moves |
| WriteHalf.NeverStuck | ssh-transport/src/lib.rs:165-198 | In every reachable state with a write-side call or close pending some pending one can go on, without any step of a reader |
| WriteHalf.CallIsARun | ssh-transport/src/lib.rs:165-198 | Each call is a run of the machine with the method's effect |
| WriteHalf.CloserIsARun | ssh-transport/src/lib.rs:193-196 | The close task is a run of the machine with the method's effect |
| WriteHalf.EofIsSentEachTime | ssh-transport/src/lib.rs:175-187 | From any state with the half in place and the mutex free, two eof calls put two Eofs on the wire |
| WriteHalf.EofIsIdempotentExactly | ssh-transport/src/lib.rs:175-187 | A second eof call leaves the wire as the first left it exactly when the half was already taken |
| Dial.Handshaken | ssh-transport/src/lib.rs:291-320 | The verifier is asked with the hop's own endpoint; no connection without its consent |
| Dial.Authenticate | ssh-transport/src/lib.rs:857-890 | A key is parsed before anything is sent; rejection is an error, with its text |
| Dial.DialHop | ssh-transport/src/lib.rs:749-796 | One pass of the loop: its events, its connection, its labelled error; the previous handle is always there |
| Dial.DialChain | ssh-transport/src/lib.rs:746-803 | The loop stops at the first failing hop; on success parents and target are complete |
| Dial.ConnectInner | ssh-transport/src/lib.rs:710-826 | Result and whole event log of a dial for every chain and oracle; early exits drop what is owned |
| DialOutcome.SucceedsExactly | ssh-transport/src/lib.rs:746-823 | A dial succeeds exactly when no shell request fails and at every hop the tunnel opens, a key is presented and accepted, the transport comes up, the private key parses and the server says yes |
| DialOutcome.FailsExactly | ssh-transport/src/lib.rs:776-823 | Otherwise its error is that of the first hop at which one of these fails, case by case with text and label, or of the failed shell request |
| DialOutcome.LogIsTrue | ssh-transport/src/lib.rs:291-320 | Every event happened: the verifier saw the key presented, tunnels are recorded with their answer, authentication only after a yes |
| DialOutcome.LogIsComplete | ssh-transport/src/lib.rs:746-803 | Every hop up to the first failing one is recorded as far as it got |
| DialSafety.DialIsSafe | ssh-transport/src/lib.rs:746-803 | Every event is justified by its past: own endpoint, own credentials, after acceptance of 0..i and authentication of 0..i-1, through connection i-1; what is open at the end is all or nothing |
| DialSafety.OfferComesAfterAll | ssh-transport/src/lib.rs:746-803 | Hop i's own credentials are offered only after the verifier accepted each endpoint 0..i and each hop 0..i-1 authenticated |
| DialSafety.VerifierSeesPrefix | ssh-transport/src/lib.rs:306-319 | The endpoints shown to the verifier are a prefix of the chain, all of it on success |
| DialSafety.NothingPastFailure | ssh-transport/src/lib.rs:788-796 | No event concerns a hop after the first failing one |
| DialSafety.ErrorNamesFirstFailure | ssh-transport/src/lib.rs:776-796 | A refused tunnel or hop credential is labelled with exactly the first failing hop; the target's is not; a rejected key is reported as such |
| DialSafety.SessionOwnsChain | ssh-transport/src/lib.rs:797-823 | On success the session owns the chain in order; on failure nothing is open |
| Session.InvNext | ssh-transport/src/lib.rs:452-557 | Every step keeps the lock invariant, single ownership of every connection, and the bye schedule |
| SessionSafety.ByesFollowPlan | ssh-transport/src/lib.rs:534-556 | In every interleaving the byes follow target, last hop, ..., first hop, one at a time, from at most one task |
| SessionSafety.RiderEndsFirst | ssh-transport/src/lib.rs:545-554 | A bye to a hop starts only after the bye of the connection riding it has ended |
| SessionSafety.FreeHandleOwnsAllOrNothing | ssh-transport/src/lib.rs:534-536 | With the handle lock free, no handle implies no parents (and a spawned task that has them) |
| SessionSafety.OnlyNestedLock | ssh-transport/src/lib.rs:534-536 | The only nested acquisition is handle then parents, and it never waits |
| SessionSafety.NoCircularWait | ssh-transport/src/lib.rs:452-557 | No reachable state has a circular wait of any length |
| SessionSafety.TakeSplitsCalls | ssh-transport/src/lib.rs:454-457 | Uses precede the one take and refusals follow it, for the handle and for the shell |
| SessionSafety.RefusedAfterTake | ssh-transport/src/lib.rs:503-522 | A call that gets its mutex after the take is refused and cannot use the handle |
| SessionSafety.ServedBeforeTake | ssh-transport/src/lib.rs:503-536 | Until the take a call that gets its mutex is served, and the first disconnect to get it takes |
| SessionProgress.NeverStuck | ssh-transport/src/lib.rs:452-557 | Whenever threads are in calls, one of them has a step that brings it nearer the end of its call |
| SessionProgress.CallFinishes | ssh-transport/src/lib.rs:452-557 | In every reachable state every begun call, a disconnect included, can run to its end by steps of begun calls alone, a use of the handle ending when the server has answered |
| SessionSafety.TeardownIsComplete | ssh-transport/src/lib.rs:537-555 | A finished teardown has ended every bye and nothing is owned any more |
| SessionProgress.TeardownFinishes | ssh-transport/src/lib.rs:537-555 | Once spawned, the teardown finishes by its own steps, whatever locks are held and whichever byes time out |
| SessionProgress.DisconnectFinishes | ssh-transport/src/lib.rs:527-557 | From any point of a disconnect call, in any interleaving, steps of begun calls end it and then steps of the teardown task alone say every bye of the plan |
| SessionSafety.DialThenTeardown | ssh-transport/src/lib.rs:368-388 | Dial plus teardown: the connections closed are exactly those the dial opened, newest first |
| SessionCalls.SshSpikeSession.Disconnect | ssh-transport/src/lib.rs:527-557 | Takes the write half, and the handle with all parents, at most once each, as the machine's disconnect does |
| SessionCalls.SshSpikeSession.RunTeardown | ssh-transport/src/lib.rs:537-555 | The loop over the reversed parents says the byes of the plan, whichever time out, as the machine's task does |
| SessionCalls.DisconnectIsARun | ssh-transport/src/lib.rs:527-557 | A disconnect call, the first or a later one, is a run of the machine with the method's effect |
| SessionCalls.TeardownIsARun | ssh-transport/src/lib.rs:537-555 | The teardown task is a run of the machine with the method's effect, beside any threads |
| SessionCalls.ByesOneByOne | ssh-transport/src/lib.rs:537-555 | The teardown's byes start and end once each, in order, and time out where the servers are slow |
| SessionCalls.BorrowIsARun | ssh-transport/src/lib.rs:604-608 | A call on the connection is a run of the machine that uses the handle if there is one, is refused if not, and leaves locks, threads and ownership as they were |
| SessionCalls.BorrowAfterDisconnect | ssh-transport/src/lib.rs:527-536 | Such a call made after a disconnect call is refused |
| ForwardRouter.InvNext | ssh-transport/src/lib.rs:263-345 | Every step keeps: only the target's handler has the router, the sender count, and the conservation of accepted channels |
| ForwardRouter.NothingLostNothingForged | ssh-transport/src/lib.rs:322-345 | With any number of hops, delivered plus in flight is the sequence of channels accepted on the target, in order; none is lost, and none accepted on a hop shows up, because hop handlers are built without the router |
| ForwardRouter.ExitsExactly | ssh-transport/src/lib.rs:272-276 | The loop may exit exactly when the dial is over, the target's handler is gone or was never built, and all channels accepted on the target are delivered |
| ForwardRouter.LoopDrains | ssh-transport/src/lib.rs:272-276 | Once the senders are gone the loop by itself delivers the rest and exits |
| ForwardRouter.FailedDialExits | ssh-transport/src/lib.rs:734-760 | So it does after a dial that failed before the target's handler was built |
| ForwardRouter.DispatchLoop | ssh-transport/src/lib.rs:264-277 | The loop hands every item to the sink in order |
| Sftp.OpenFile | ssh-transport/src/lib.rs:1101-1134 | Read-only: never changes a file, succeeds exactly when the path exists, and its handle cannot write. For writing: creates a missing file, keeps an existing one unless it truncates, and its handle cannot read. The cursor is at the offset; a refusal changes nothing |
| Sftp.WrongWay | ssh-transport/src/lib.rs:1107-1118 | A read-only handle refuses every write and a write handle every read, with no effect |
| Sftp.RemoteFile.Read | ssh-transport/src/lib.rs:213-228 | A permitted chunk and an advanced cursor, or an error and no change; an empty chunk exactly at the end of file or for a request of zero bytes; closed handles refuse |
| Sftp.RemoteFile.Write | ssh-transport/src/lib.rs:233-244 | Writes at the cursor; a failure leaves an applied prefix; closed handles refuse |
| Sftp.RemoteFile.Disconnect | ssh-transport/src/lib.rs:246-252 | Empties the handle and spawns its close, at most once |
| Sftp.WriteAtPointwise | ssh-transport/src/lib.rs:230-244 | A write keeps every byte before and after its range, and zero-fills a gap |
| Sftp.WholeWriteReplaces | ssh-transport/src/lib.rs:957-977 | create-or-truncate write: the file is exactly the data, no other file changes |
| Sftp.UploadIsPrefix | ssh-transport/src/lib.rs:1085-1134 | Any chunking and any interruptions, resumed at or before the end of the remote file, leave a prefix of the payload and touch no other file |
| Sftp.ResumptionOnlyAdds | ssh-transport/src/lib.rs:1089-1099 | A resumption, wherever up to the remote length it starts, never takes back what an upload has reached |
| Sftp.UploadResuming | ssh-transport/src/lib.rs:1085-1134 | The caller's loops over connections and chunks compute the upload that the theorems are about |
| Sftp.UploadRefinesWholeWrite | ssh-transport/src/lib.rs:1085-1134 | Such an upload equals one whole-file write exactly when it reached the payload's length |
| Sftp.LastConnectionCompletes | ssh-transport/src/lib.rs:1089-1099 | One more undisturbed resumption with enough bytes completes it |
| Sftp.CompletesAtLast | ssh-transport/src/lib.rs:1085-1134 | An upload whose last connection is undisturbed and offers enough bytes equals one whole-file write |
| Sftp.TruncatingResume | ssh-transport/src/lib.rs:1089-1118 | An undisturbed connection that resumes at k with truncation yields the payload exactly when its first k bytes are zeroes and there is a rest to send (or the payload is empty) |
| Sftp.TruncationLoses | ssh-transport/src/lib.rs:1089-1118 | Two payloads that such a resumption spoils, one for each reason |
| Sftp.Download | ssh-transport/src/lib.rs:2061-2071 | Reading until empty terminates, for all positive requests and short reads, with the content from the offset, or with a prefix of it if a read failed |
| Sftp.DownloadResuming | ssh-transport/src/lib.rs:1076-1083 | A download broken off at any reads and reopened at the offset plus the bytes received yields the same content |
| Sftp.RoundTrip | ssh-transport/src/lib.rs:2032-2076 | After any interrupted and resumed upload, a chunked download from any offset returns a prefix of the payload's tail, and the whole tail once the remote file has the payload's length, which is exactly when the upload equals one whole-file write |

## Left out

- The SSH and SFTP libraries, the async runtime and SHA-256 themselves; the assumptions above stand for them.
- Opening the exec, banner, direct-tcpip and sftp channels: one request that succeeds or fails before the loops modelled here start.
- Any order between the shell's Eof and Close and the transport's bye: two separately spawned tasks send them.
- An order of release on a failed dial: it drops what its locals own, as a set.
- Liveness of `disconnect` while `exec` waits on a silent server: `exec` holds the handle lock for its whole run.
- A session that is dropped without `disconnect`, and poisoned mutexes.
- The bytes of the words around a hop label in error texts; an error carries the hop's host and port as data.
- The list of accepted host keys kept by each handler: it is written and never read.
- Parsing of private keys and authentication cryptography: an oracle says whether a key parses and whether the server accepts.
- One-call SFTP operations (rename, remove, mkdir, stat, readdir, readlink, realpath), `meta_record`, `transport_config`: easy members.
- perl's `pack` on text that is not lower-case hex, and input lines other than an encoded ed25519 blob.
- The interior of a UTF-8 string: a decoded string is kept as its bytes.
- Docker and shell provisioning scripts and the Go and Python fixture servers.

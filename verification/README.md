# Verified models of the QUIDS native core

A Dafny 4.11 project that models five pieces of the QUIDS repository and proves
what they keep over every input and every run. `dafny verify dfyconfig.toml`
checks all of it.

**TLS stream** (`TlsModel`, `TlsAsync`, `TlsInvariant`, `TlsSystem`, `TlsRuns`,
`TlsReports`, `TlsWire`, `TlsLedger`, `TlsWireRuns`, `TlsWireReports`,
`TlsOverlap`, `TlsStream`). The Boost.Asio wrapper around a TLS channel in
`vendors/asio_stream.h` and `vendors/asio_async_ops.h`. The channel is a
parameter: any functions for received data, sending, closing and handshake
completion, with any sequence of callbacks (emitted records, decrypted records,
alerts) followed or not by an exception. Setting it up may emit a first flight.
The network is a script of events: a read delivers bytes or an error, a write
accepts some number of bytes or fails. `Conn` is the stream as a value, with logs
of what the channel emitted and decrypted, what reached the wire and whether an
assertion of the source has fired. `TlsStream` holds the same operations as
classes that update their fields, each proved equal to the value-level function.
`TlsSystem` interleaves one read or handshake with one write, completion by
completion, mixed with blocking calls; a handshake's own writes may overlap the
caller's. `TlsRuns` and `TlsReports` prove what holds of all such runs.

The wire is accounted for by positions: every emitted byte is known by its place
in all that was emitted, and a ledger records which positions were sent, in what
order, and which were in the send buffer when a failed encryption discarded it.
The wire is *intact* when every byte is sent at most once and in order, and a byte
that is neither sent, nor in the send buffer, nor in flight was discarded.

**Big-integer register** (`BitArithmetic`, `BigIntRegister`, `BigIntObject`).
The inner `Data` class of `vendors/bigint.h`: a vector of words, least
significant first, with a lazily cached count of significant words. Every
operation is related to the integer the register denotes.

**BER and DER** (`BerDer`, `BerDerObject`). Optional and list elements with
one-object push-back, and their round trips with the encoder. `View` is the
stream of objects a decoder still has to deliver, pushed-back one included; it is
the reference the operations are stated against.

**Byte combination** (`XorBuf`). The chunked `xor_buf` loops, `operator^=`,
`same_mem`, and the XEX mode built on them.

**Benchmark pipeline** (`Pipeline`). The bounded queue, worker threads and rate
windows of `realtime_benchmark.py`, as a state machine over all interleavings.

## Assumptions

- An `error_code` has failed exactly when its value is not zero. Exceptions from
  the channel carry a positive code, so a local error is never a close_notify.
- A failed transport write moved no bytes; partial acceptance is a separate event.
- `Orderly`: the channel decrypts no application data before its handshake is
  complete, and a complete handshake stays complete. It is asked for by the
  results on assertions, errors and delivery, not by those on the wire or on
  completions. `BlockingHandshakeAsserts` says exactly when the blocking
  handshake's assertion fires without it.
- `EmptyInputIsNoOp`, used only to compare the two forms: an empty read from the
  network leaves the channel alone.
- At most one read or handshake and one write of the caller are outstanding. A
  channel is set up once, so setting up never undoes a completed handshake.
- Keeping handshakes and the caller's writes apart is asked for only by
  `RunsConserveTheWire`; `RunsConserveExactly` gives the exact condition without it.
- The word size is any positive number of bits, as the build selects it; the
  vector's new capacity is any function of the old one and the size asked for, but
  never less than that size.
- Framing and the element codec are parameters of the BER model, and so is where
  a failed read leaves the source. The round trips ask that reading inverts
  writing and that the codec inverts itself. The body of `start_cons` is not part
  of this model: the two results on default arguments carry as a hypothesis that
  it asks for the class with the constructed bit.

## What the code does against expectation

- With no room on a healthy, empty stream, `async_read_some` completes with zero
  bytes while `read_some` waits for the network (`ReadFormsAgree`).
- After a failed encryption `async_write_some` discards the send buffer, which
  may hold bytes of an earlier reply, while `write_some` keeps it; the forms agree
  only if the buffer is empty (`WriteFormsAgree`).
- A write refused while a handshake's flight is in flight discards what of that
  flight the network has not taken, and the handshake goes on as if it had been
  sent (`FailedEncryptionCutsTheFlight`, `FirstFlightCut`).
- A write accepted meanwhile sends the flight a second time (`OverlapDuplicates`,
  `FirstFlightTwice`).
- A write in flight whose bytes were discarded consumes bytes that came into the
  send buffer later, and these are never sent (`RefilledBufferLoses`,
  `RefillIsLost`).
- After a network error `async_write_some` reports every plain byte as written
  and `write_some` none (`WriteCountsAgree`).
- `async_handshake` reads on over decrypted data that `handshake` asserts against
  (`HandshakeFormsAgree`).
- `mask_bits` keeps the sign and can leave a negative zero
  (`MaskLeavesNegativeZero`).
- `resize`, and writes through a pointer taken before the count was cached, can
  leave a stale count; no other operation can (`CacheStep`).
- `raw_bytes` is documented as saving all the remaining bytes, but skips an
  object that was pushed back (`RawBytesMissPushed`).
- `decode_optional_list` looks ahead for class `k` and then opens a constructed
  object of class `k`, so it succeeds only when these coincide
  (`OptionalListFound`). With its default arguments it never returns true, and a
  sequence that was written is passed over (`UniversalListNeverFound`,
  `DefaultListIsLost`).
- An omitted default is misread when what follows carries the same tag
  (`OptionalRoundTrip`).
- The benchmark credits a transaction on submission and again on completion
  (`WindowsBalance`).

## Model

| member | source | states |
|---|---|---|
| `TlsRuns.RunsNeverAssert` | vendors/asio_stream.h:831-832 | In no interleaving of operations, completions and blocking calls, writes overlapping handshakes included, does any assertion of the stream fire. |
| `TlsRuns.RunsDeliverInOrder` | vendors/asio_stream.h:713-721 | In every run the bytes returned by all reads, in completion order, are a prefix of the decrypted bytes. |
| `TlsRuns.ReadReports` | vendors/asio_stream.h:546-574 | A finished read of either form fills its buffer or empties the stream's, returns data when it succeeds with room, and fails only after every decrypted byte was handed out: with the local error, else the peer's alert, else the network's error (end of file as truncation). It reports end of file if and only if it fails, a close_notify is retained and no local error is. |
| `TlsRuns.HandshakeReports` | vendors/asio_async_ops.h:305-363 | A handshake of either form that succeeds is complete; one that fails reports the local error, else the peer's alert (close_notify as end of file); either way everything emitted by then (by its yield, if it yielded) has left the send buffer. Otherwise the error is exactly that of the setup or of the network event met last. |
| `TlsInvariant.RetainedIsReported` | vendors/asio_stream.h:784-812 | With no error yet, a healthy stream reports none and any other its retained one: a local error as it is and before any alert, an alert under its own number, close_notify as end of file. |
| `TlsInvariant.EofMapping` | vendors/asio_stream.h:841-865 | End of file counts as truncation if and only if no close_notify announced it, in writes and in asynchronous reads; in blocking reads always; every other error stays as it is. |
| `TlsModel.ThrownCodes` | vendors/asio_stream.h:930-941 | An exception always leaves an error, an alert code if and only if it is a TLS exception, with its own number; without one the code stays. |
| `TlsReports.WritesReport` | vendors/asio_async_ops.h:234-265 | A finished write or shutdown of either form reports no error if and only if the channel did not throw and the network took everything, otherwise the error of whichever failed, and the right byte count. |
| `TlsReports.BlockingWriteReports` | vendors/asio_stream.h:605-609 | What the channel emits follows the send buffer to the wire, on success all of it; a channel that throws keeps everything buffered; the count is all bytes or none. |
| `TlsReports.BlockingShutdownReports` | vendors/asio_stream.h:451-455 | After a shutdown the channel is closed and what closing emitted follows the send buffer to the wire, on success all of it. |
| `TlsReports.WriteLaunches` | vendors/asio_stream.h:639-658 | Starting an asynchronous write: the channel's bytes join the send buffer, all of it goes in flight, and the count is that of the plain bytes; a refusal empties the buffer, counts nothing and keeps its error for the handler. |
| `TlsReports.ShutdownLaunches` | vendors/asio_stream.h:511-528 | Starting an asynchronous shutdown: the channel is closed and what closing emitted joins the send buffer and goes in flight, and stays buffered if closing throws. |
| `TlsReports.HandshakeLaunches` | vendors/asio_stream.h:409-424 | Starting an asynchronous handshake: the channel is set up, its first flight joins the send buffer and goes in flight, and an exception is kept for the handler. |
| `TlsReports.ReadLaunches` | vendors/asio_async_ops.h:109-120 | Starting an asynchronous read: it waits or has its answer, for exactly the buffer it was given. |
| `TlsReports.HandshakeWaits` | vendors/asio_async_ops.h:338-351 | A handshake comes to wait for the peer only on a healthy, flushed stream whose handshake is not complete. |
| `TlsReports.NetworkErrorsEnd` | vendors/asio_async_ops.h:141-184 | A network error ends a pending read or handshake at once, leaves the stream alone, and is what it reports, end of file as truncation. |
| `TlsReports.DeliveriesEnd` | vendors/asio_async_ops.h:150-167 | A delivery ends a pending read if and only if the channel decrypted something, threw, or received a fatal alert or close_notify; what it decrypted and emitted is taken over in order. |
| `TlsReports.RunsFeedTheChannel` | vendors/asio_async_ops.h:146-153 | In every run the channel is fed exactly what the network delivered to all operations, in order. |
| `TlsReports.StepFeeds` | vendors/asio_async_ops.h:314-321 | Every byte delivered in a step, to an asynchronous or a blocking operation, reaches the channel in that step. |
| `TlsRuns.RetainedErrorsAreFinal` | vendors/asio_stream.h:915-916 | Once an alert or local error is retained it never changes in any continuation, overlapping writes included, and no further ciphertext reaches the channel. |
| `TlsRuns.NothingFollowsTheError` | vendors/asio_stream.h:556-562 | After everything decrypted has been returned on a failed session, the bytes returned stay exactly those in every continuation. |
| `TlsRuns.NeverInsideTheInitiatingCall` | vendors/asio_async_ops.h:176-184 | Starting any asynchronous operation reports nothing and leaves it outstanding, whatever the state. |
| `TlsRuns.CompletesExactlyOnce` | vendors/asio_async_ops.h:88-92 | In every run, for every channel, each started operation completes at most once, exactly once when nothing is outstanding, and never when not started. |
| `TlsWireRuns.RunsConserveExactly` | vendors/asio_async_ops.h:243-251 | In every run, however operations overlap, the wire holds the emitted bytes at the positions the ledger says, and it is intact at the end if and only if no returning write found its bytes overtaken on the wire, and none left an undiscarded byte behind: out of the buffer, unsent and in no other flight. |
| `TlsWireRuns.StepExact` | vendors/asio_async_ops.h:234-265 | A step leaves the wire intact if and only if it was intact and no returning write goes astray, so nothing later repairs one that did. |
| `TlsWireRuns.OnlyRefusalsAndReturnsLose` | vendors/asio_stream.h:646-652 | Exactly which bytes go missing in a step: what a refused write finds in the send buffer and in no flight, what a returning write leaves behind, and nothing in any other step; what is missing stays missing. |
| `TlsWireRuns.UndiscardedRunsConserve` | vendors/asio_stream.h:61-64 | If no write went astray and nothing was discarded, wire plus send buffer are byte for byte what the channel emitted. |
| `TlsWireReports.RunsConserveTheWire` | vendors/asio_stream.h:61-64 | In every run that keeps handshakes and the caller's writes apart, the wire holds emitted bytes in order and each once, every byte out of the buffer was either sent or discarded and never both, and without discards wire plus send buffer are what was emitted. |
| `TlsWireReports.HandshakeIsOnTheWire` | vendors/asio_stream.h:366-387 | In every run without a write gone astray, overlapping or not, a handshake that completes with neither setup nor network failing has everything emitted by then (by its yield, if it yielded), an alert included, sent, discarded or in a flight not over; on the wire if nothing was discarded. |
| `TlsWireReports.WriteReports` | vendors/asio_async_ops.h:247-263 | The same for a write or shutdown of either form that completes without error, about everything emitted up to its start. |
| `TlsOverlap.OverlapDuplicates` | vendors/asio_async_ops.h:326-336 | With a handshake's write and a caller's write in flight over the same bytes, whichever returns first, both put on the wire what they took, and it stays intact if and only if one of them took nothing. |
| `TlsOverlap.FirstFlightTwice` | vendors/asio_stream.h:744-756 | The same as a run of a new stream with a first flight; when both writes are accepted whole the flight is on the wire twice, in either order. |
| `TlsOverlap.FailedEncryptionCutsTheFlight` | vendors/asio_stream.h:648-652 | After a write refused during a handshake's flight the handshake's write ends with its next return; the bytes lost are exactly those discarded that the network had not taken, so none if it took them all. |
| `TlsOverlap.FirstFlightCut` | vendors/asio_stream.h:744-756 | The same as a run of a new stream: the wire is the part of the first flight that was taken, and equals all that was emitted if and only if that was the whole flight and the refusal emitted nothing. |
| `TlsOverlap.RefilledBufferLoses` | vendors/asio_stream.h:726-727 | A returning flight whose bytes were discarded takes as many later bytes out of the send buffer as it sent; those are lost undiscarded, and the wire is not intact. |
| `TlsOverlap.RefillIsLost` | vendors/asio_async_ops.h:243-251 | The same as a run of a new stream: a refused write, then a blocking write the network fails, then the first flight's return. |
| `TlsRuns.ReachableHandshakesAgree` | vendors/asio_stream.h:363-397 | On every stream a run can reach, the two handshake forms have the same outcome and no assertion fires. |
| `TlsRuns.PrematureDataAsserts` | vendors/asio_stream.h:831-831 | An instance of the condition: a channel that decrypts data before its handshake is complete makes the blocking handshake's assertion fire. |
| `TlsRuns.RunKeeps` | vendors/asio_stream.h:546-662 | Every run preserves the combined invariant of delivery, errors, assertions and pending reads. |
| `TlsSystem.StepKeeps` | vendors/asio_async_ops.h:139-363 | Every enabled step of every operation, blocking or not and overlapping or not, preserves the invariant of delivery, errors, assertions and pending reads. |
| `TlsSystem.ReadCallKeeps` | vendors/asio_async_ops.h:139-186 | A call of the read operation keeps delivery, and whatever it yields or completes is a sound verdict with an explained error. |
| `TlsSystem.ShakeCallKeeps` | vendors/asio_async_ops.h:305-363 | A call of the handshake operation keeps delivery, completes only with a sound verdict, and reads only on a flushed, healthy stream. |
| `TlsSystem.AsideKeeps` | vendors/asio_async_ops.h:234-265 | Whatever writes do beside it, a pending read or handshake keeps all it relies on. |
| `TlsSystem.WriteReturnsEffect` | vendors/asio_async_ops.h:234-265 | A finished transport write puts what it took on the wire, consumes as much of the buffer as it is now, and completes without error only when that is empty. |
| `TlsSystem.NestedGoesOn` | vendors/asio_async_ops.h:326-351 | A handshake's finished write takes up what is left, or gives the handshake its turn to wait or complete, and leaves the caller's write alone. |
| `TlsAsync.ReadFormsAgree` | vendors/asio_async_ops.h:139-186 | `async_read_some` and `read_some` agree on error, bytes, stream and remaining script if and only if the caller is not polling with no room on a healthy stream with nothing buffered. |
| `TlsAsync.WriteFormsAgree` | vendors/asio_stream.h:605-662 | `async_write_some` and `write_some` agree on error, stream and script if and only if encryption succeeds or leaves the send buffer empty. |
| `TlsAsync.WriteCountsAgree` | vendors/asio_stream.h:608-657 | When both return, their byte counts differ if and only if encryption succeeds, there is data, and the network fails before accepting the encrypted bytes. |
| `TlsAsync.ShutdownFormsAgree` | vendors/asio_stream.h:451-528 | `async_shutdown` and `shutdown` agree on error, stream and script, always. |
| `TlsAsync.HandshakeFormsAgree` | vendors/asio_async_ops.h:305-363 | `async_handshake`, nested writes and first flight included, and `handshake` agree on error, stream and both scripts if and only if channel and scripts do not bring the handshake to a read while decrypted data waits. |
| `TlsAsync.BlockingHandshakeAsserts` | vendors/asio_stream.h:363-397 | The blocking handshake trips an assertion if and only if, flights accepted and session neither complete nor ended, it comes to a read while decrypted data waits. |
| `TlsAsync.DriveWriteFlushes` | vendors/asio_async_ops.h:247-263 | A write operation that completes without error has emptied the send buffer, over every script. |
| `TlsAsync.FedGrows` | vendors/asio_stream.h:546-574 | A blocking read that starts with nothing buffered and succeeds has consumed something from the network. |
| `TlsInvariant.ProcessKeeps` | vendors/asio_stream.h:914-927 | Processing ciphertext on a healthy stream trips nothing and loses no decrypted byte. |
| `TlsInvariant.ReadSomeKeeps` | vendors/asio_stream.h:546-574 | `read_some` over every script keeps delivery, gives a sound verdict, trips nothing, and on a failed session feeds the channel nothing. |
| `TlsInvariant.ReadSomeExplains` | vendors/asio_stream.h:784-844 | A failing `read_some` reports the retained error, or on a healthy stream the last network event's error with end of file as truncation. |
| `TlsInvariant.HandshakeKeeps` | vendors/asio_stream.h:363-397 | `handshake` over all scripts keeps delivery, trips nothing, and ends complete, or with the retained error and a flushed buffer, or with a network error. |
| `TlsWire.FlowPositions` | vendors/asio_stream.h:61-64 | Emitting, and moving bytes from the head of the send buffer to the wire, send exactly the positions that leave the buffer, in order. |
| `TlsLedger.DiscardMisses` | vendors/asio_stream.h:648-652 | A discard loses exactly the bytes of the send buffer that no write has in flight. |
| `TlsLedger.ArriveMisses` | vendors/asio_stream.h:726-727 | A returning write loses exactly what it consumed or had in flight without sending it, unless the other flight has it or it was sent. |
| `TlsLedger.ArriveExact` | vendors/asio_async_ops.h:243-245 | A returning write keeps an account intact if and only if it was intact and the write neither repeats, reorders nor loses an undiscarded byte. |
| `TlsWire.ReadSomeFlows` | vendors/asio_stream.h:546-574 | `read_some` only emits: nothing reaches the wire or is dropped. |
| `TlsWire.HandshakeFlows` | vendors/asio_stream.h:363-397 | `handshake` only emits and sends from the head of the buffer, over all scripts. |
| `TlsModel.ApplyAllEffect` | vendors/asio_stream.h:61-93 | Any sequence of callbacks appends the emitted and decrypted bytes in order and retains the last fatal or close_notify alert. |
| `TlsModel.ProcessEffect` | vendors/asio_stream.h:914-927 | The whole effect of one processing call on buffers, logs, retained alert and retained error. |
| `TlsModel.WriteAllEffect` | vendors/asio_stream.h:854-868 | A blocking send moves a prefix of the buffer to the wire, changes nothing else, and without error empties it. |
| `TlsModel.WriteAllAccepts` | vendors/asio_stream.h:859-860 | Counting accepted bytes first and consuming once, as the code does, equals consuming after every partial write. |
| `TlsStream.Stream.constructor` | vendors/asio_stream.h:58-59 | A new stream is the empty connection. |
| `TlsStream.Stream.TlsEmitData` | vendors/asio_stream.h:61-64 | The object's state follows the value-level emission. |
| `TlsStream.Stream.Callback` | vendors/asio_stream.h:61-93 | The object's state follows the value-level callback, warnings ignored. |
| `TlsStream.Stream.ProcessEncryptedData` | vendors/asio_stream.h:914-927 | The callback loop and the exception handler end in the value-level state. |
| `TlsStream.Stream.CopyReceivedData` | vendors/asio_stream.h:713-721 | Hands out and removes the oldest decrypted bytes that fit. |
| `TlsStream.Stream.HandleTlsProtocolErrors` | vendors/asio_stream.h:784-812 | An existing error stands; otherwise the local error, then the alert with close_notify as end of file. |
| `TlsStream.Stream.ReadAndProcessEncryptedData` | vendors/asio_stream.h:823-844 | One network read: nothing on error, processed data otherwise, end of file as truncation, violated assertions recorded. |
| `TlsStream.Stream.AsioWrite` | vendors/asio_stream.h:859-859 | The write loop accepts exactly the prefix the script allows. |
| `TlsStream.Stream.SendPendingEncryptedData` | vendors/asio_stream.h:854-868 | The blocking send has the state, error and remaining script of its specification. |
| `TlsStream.Stream.ReadSome` | vendors/asio_stream.h:546-574 | The read loop has the state, error, bytes and remaining script of its specification. |
| `TlsStream.Stream.SetupNativeHandle` | vendors/asio_stream.h:738-766 | The object follows the value-level set-up: new channel, first flight buffered, exception turned into an error code. |
| `TlsStream.Stream.Handshake` | vendors/asio_stream.h:363-397 | Set-up followed by the loop has the state, error and remaining scripts of its specification. |
| `TlsStream.Stream.HandshakeLoop` | vendors/asio_stream.h:369-396 | The loop alone, from any stream and error code, has those of its specification. |
| `TlsStream.Stream.TlsEncrypt` | vendors/asio_stream.h:876-901 | Encryption leaves the specified state and error. |
| `TlsStream.Stream.WriteSome` | vendors/asio_stream.h:605-609 | The blocking write has the specified state, error and remaining script, and counts all bytes or none. |
| `TlsStream.Stream.Shutdown` | vendors/asio_stream.h:451-455 | The blocking shutdown has the specified state, error and remaining script. |
| `TlsStream.Stream.BeginWrite` | vendors/asio_stream.h:645-658 | The start of an asynchronous write leaves the specified state, error and byte count. |
| `TlsStream.AsyncReadOperation.Call` | vendors/asio_async_ops.h:139-186 | One invocation updates the stream and chooses waiting, yielding or completing as specified. |
| `TlsStream.AsyncWriteOperation.Call` | vendors/asio_async_ops.h:234-265 | The same for the write operation. |
| `TlsStream.AsyncHandshakeOperation.Call` | vendors/asio_async_ops.h:305-363 | The same for the handshake operation. |
| `BigIntRegister.MaskBitsMeaning` | vendors/bigint.h:1014-1031 | `mask_bits(n)` leaves the value modulo 2^n, for every n and register. |
| `BigIntRegister.CacheStep` | vendors/bigint.h:965-1071 | An operation on a consistent register leaves the cached count right if and only if it is not a resize below the significant words or a write through an old pointer that moves the top word. |
| `BigIntRegister.CacheRun` | vendors/bigint.h:1064-1071 | After any sequence of such operations the cached count is unknown or right, so the debug assertion holds. |
| `BigIntRegister.ApplyMeaning` | vendors/bigint.h:965-1071 | What every operation does to the denoted integer, whatever the capacity and growth policy, and whatever the cache says except for `shrink_to_fit`, which reads it. |
| `BigIntRegister.SigWordsLeast` | vendors/bigint.h:1064-1076 | The count is the least number of words the value fits in. |
| `BigIntRegister.ZeroIffNoSigWords` | vendors/bigint.h:1064-1071 | The value is zero if and only if there are no significant words. |
| `BigIntRegister.GetBitMeaning` | vendors/bigint.h:497-497 | `get_bit(n)` is bit n of the integer, also beyond the register. |
| `BigIntRegister.SetBitMeaning` | vendors/bigint.h:474-478 | Setting bit n adds 2^n if and only if it was clear; not setting it changes nothing. |
| `BigIntRegister.SetBitFrame` | vendors/bigint.h:474-478 | Every bit afterwards is what it was, except bit n when it is set. |
| `BigIntRegister.SetWordAtMeaning` | vendors/bigint.h:986-995 | Replaces one word, in and beyond the register, and moves the value by exactly the weighted difference. |
| `BigIntRegister.ResizedValue` | vendors/bigint.h:1045-1050 | Resizing reduces the value modulo the new width and keeps it when the significant words fit. |
| `BigIntRegister.GrowthSizes` | vendors/bigint.h:1008-1041 | Growth within capacity is exact, beyond it a multiple of eight strictly above the request and at most eight more. |
| `BigIntRegister.ShrunkSize` | vendors/bigint.h:1045-1048 | Shrinking leaves the least size that is at least the minimum and holds the value. |
| `BigIntRegister.Sizes` | vendors/bigint.h:997-1050 | The size of the register after every other operation; with the value it determines every word. |
| `BigIntRegister.Capacities` | vendors/bigint.h:1002-1050 | No operation but a swap gives memory back, and a size within the capacity leaves it. |
| `BigIntRegister.CountAfter` | vendors/bigint.h:965-1071 | Which operations leave the cached count known, unknown, or as it was. |
| `BigIntObject.FlipNegates` | vendors/bigint.h:577-599 | Flipping the sign negates the integer and never leaves a negative zero. |
| `BigIntObject.FlipTwice` | vendors/bigint.h:587-599 | Flipping twice restores the stored sign if and only if the number was not a negative zero. |
| `BigIntObject.MaskLeavesNegativeZero` | vendors/bigint.h:490-490 | Masking leaves a negative zero if and only if a negative value loses all its bits. |
| `BigIntObject.Data.SetWordAt` | vendors/bigint.h:986-995 | The object's state follows the register operation. |
| `BigIntObject.Data.SetWords` | vendors/bigint.h:997-1000 | The same for replacing all words. |
| `BigIntObject.Data.SetToZero` | vendors/bigint.h:1002-1006 | The same for zeroing to capacity with a known count. |
| `BigIntObject.Data.SetSize` | vendors/bigint.h:1008-1012 | The same for clearing and sizing. |
| `BigIntObject.Data.MaskBits` | vendors/bigint.h:1014-1031 | The same for masking: all of it for zero bits, otherwise the top word masked and the words above cleared. |
| `BigIntObject.Data.GrowTo` | vendors/bigint.h:1033-1041 | The same for growing. |
| `BigIntObject.Data.ShrinkToFit` | vendors/bigint.h:1045-1048 | The same for shrinking, through the cached count. |
| `BigIntObject.Data.Resize` | vendors/bigint.h:1050-1050 | The same for resizing, the cached count untouched. |
| `BigIntObject.Data.Swap` | vendors/bigint.h:1052-1055 | Two registers exchange words, capacity and cached count. |
| `BigIntObject.Data.CountSigWords` | vendors/bigint.h:1064-1071 | Returns the true count and caches it, words untouched. |
| `BigIntObject.BigInt.SetSign` | vendors/bigint.h:593-599 | Stores the sign without ever storing a negative zero. |
| `BigIntObject.BigInt.FlipSign` | vendors/bigint.h:587-587 | Negates the integer. |
| `BigIntObject.BigInt.Clear` | vendors/bigint.h:399-402 | The integer becomes a positive zero. |
| `BigIntObject.BigInt.MaskBits` | vendors/bigint.h:490-490 | The magnitude is reduced modulo 2^n and the sign kept. |
| `BigIntObject.BigInt.ConditionallySetBit` | vendors/bigint.h:474-478 | Sets bit n of the magnitude on request and changes no other bit, growing where needed. |
| `BigIntObject.BigInt.PowerOf2` | vendors/bigint.h:821-825 | A fresh number equal to 2^n. |
| `Pipeline.ExactlyOnePlace` | realtime_benchmark.py:168-221 | In every interleaving each accepted transaction is in exactly one of queue, one worker's batch, processed; nothing else is anywhere. |
| `Pipeline.NothingLeftInHands` | realtime_benchmark.py:168-188 | Once all workers have exited, each accepted transaction was processed once or is still queued, and every success was drained or waits in the result queue. |
| `Pipeline.WorkerRound` | realtime_benchmark.py:168-184 | A worker at the top of its loop, scheduled alone in a running benchmark with a nonempty queue, takes a batch from the head, processes it in order, publishes the number of successes and is at the top again, changing nothing else. |
| `Pipeline.WorkerFindsNothing` | realtime_benchmark.py:172-182 | A worker that finds the queue empty is back at the top having changed nothing, publishing nothing. |
| `Pipeline.LosesTheRace` | realtime_benchmark.py:174-179 | A worker beaten to the last transaction goes on with the batch it has, or starts over if it has none. |
| `Pipeline.NoneExitsEarly` | realtime_benchmark.py:169-188 | In every run no worker and no producer has ended while the benchmark runs, and no worker holds more than a batch. |
| `Pipeline.RunsUntilStopped` | realtime_benchmark.py:168-169 | In every run the benchmark runs if and only if it was not stopped yet. |
| `Pipeline.ExitsWhenStopped` | realtime_benchmark.py:169-172 | A worker at the top exits with its next step if and only if the benchmark was stopped, and otherwise starts a batch. |
| `Pipeline.ProducerRound` | realtime_benchmark.py:206-241 | An undisturbed round of the producer offers one batch of new transactions, of which the queue takes what it has room for, counts the whole batch, drains every result and closes the window if it is time. |
| `Pipeline.ProducerStops` | realtime_benchmark.py:206-211 | At the top of a round the producer ends if and only if the benchmark was stopped, and does nothing if it is too early. |
| `Pipeline.WindowsBalance` | realtime_benchmark.py:223-241 | Closed windows plus the open one always equal submissions plus drained completions; between rounds that is between one and two times the transaction count, and the peak is the greatest rate. |
| `Pipeline.StepMoves` | realtime_benchmark.py:168-221 | Every step of any thread moves each transaction without losing or copying it and takes the queue in order. |
| `Pipeline.StepKeepsBooks` | realtime_benchmark.py:184-241 | Every step keeps sizes, window sums and published results in balance. |
| `Pipeline.TakenAreHeldOrProcessed` | realtime_benchmark.py:174-184 | In every run each transaction taken from the queue was processed or is in a worker's hands, transaction by transaction and in number. |
| `Pipeline.MaxOfIsMaximum` | realtime_benchmark.py:239-239 | The running peak bounds every rate and is one of them. |
| `Pipeline.RateIsFloor` | realtime_benchmark.py:236-238 | The rate is credited transactions per second rounded down. |
| `Pipeline.ProcessBatch` | realtime_benchmark.py:161-184 | One result per transaction, in order, and the number that succeeded. |
| `BerDer.OptionalFrame` | vendors/ber_dec.h:332-348 | A non-matching object, or the end, gives the default and the same stream; a match consumes exactly that object; never a double push-back; malformed data is reported. |
| `BerDer.DecodeExact` | vendors/ber_dec.h:332-341 | One value in terms of the object stream: what is next decides value or error, and is consumed even if it does not decode. |
| `BerDer.DecodeItemsExact` | vendors/ber_dec.h:382-386 | The loop over list contents succeeds if and only if they are whole and every object is an item; it appends the items before the first that is none and fails with what is wrong with that one. |
| `BerDer.DecodeListExact` | vendors/ber_dec.h:379-391 | `decode_list` in terms of the object stream: exactly one object is consumed, a wrong tag or the end is an error that appends nothing. |
| `BerDer.PushBackExact` | vendors/ber_dec.h:84-96 | Pushing back fails, changing nothing, if and only if an object is already pushed; otherwise that object is next again and the rest follows. |
| `BerDer.PeekedCannotPush` | vendors/ber_dec.h:74-82 | After a look at an object, pushing back fails until it was read. |
| `BerDer.OptionalMatch` | vendors/ber_dec.h:335-341 | A match decodes the object's own value, or the whole inner stream when explicitly tagged. |
| `BerDer.InnerErrors` | vendors/ber_dec.h:336-337 | What an explicit tag's contents decode to, and which error otherwise, trailing data included. |
| `BerDer.OptionalImplicitFrame` | vendors/ber_dec.h:354-373 | The same for implicit tags, the match decoded under its real tag. |
| `BerDer.PeekFrame` | vendors/ber_dec.h:74-82 | Peeking shows the next object, moves nothing, and repeats itself; malformed data is reported. |
| `BerDer.OptionalListFrame` | vendors/ber_dec.h:397-404 | Absent: stream and list unchanged. Present: exactly what `decode_list` does without the look-ahead. |
| `BerDer.OptionalListFound` | vendors/ber_dec.h:397-404 | A list is found if and only if the next object carries the tag, the class is its own constructed class, its contents are whole and every item decodes. |
| `BerDer.UniversalListNeverFound` | vendors/ber_dec.h:267-269 | With the default class and the standard's constructed bit the call never returns true, whatever the stream. |
| `BerDer.RawBytesMissPushed` | vendors/ber_dec.h:172-179 | The bytes `raw_bytes` yields are the rest of the stream if and only if nothing was pushed back, and a pushed object stays behind. |
| `BerDer.DecodeItemsInverse` | vendors/ber_dec.h:382-386 | Decoding the items of any encoded list appends exactly the original values. |
| `BerDer.ListRoundTrip` | vendors/der_enc.h:130-136 | A list written inside a constructed object is decoded whole and in order, leaving what follows. |
| `BerDer.OptionalListRoundTrip` | vendors/der_enc.h:130-136 | A list written inside a constructed object and read as optional is returned whole if the class is its own constructed class, otherwise reported absent with list and stream unchanged. |
| `BerDer.DefaultListIsLost` | vendors/ber_dec.h:397-404 | With the default arguments a sequence that was written is reported absent and left in the stream. |
| `BerDer.OptionalRoundTrip` | vendors/der_enc.h:122-128 | Encoding then decoding an optional returns the value if and only if it was written and, for the explicit class, its encoding is itself one wrapped object of the codec, or it was omitted and what follows does not stand for another value. |
| `BerDer.GetNextView` | vendors/ber_dec.h:63-67 | Fetching takes the head of the object stream, reports the end without moving, and fails only on malformed data. |
| `BerDerObject.BerDecoder.GetNextObject` | vendors/ber_dec.h:63-67 | The object's state follows the specification. |
| `BerDerObject.BerDecoder.PushBack` | vendors/ber_dec.h:84-96 | The object is pushed, or an error when one already is. |
| `BerDerObject.BerDecoder.PeekNextObject` | vendors/ber_dec.h:74-82 | The object's state follows the specification. |
| `BerDerObject.BerDecoder.DecodeOptional` | vendors/ber_dec.h:332-348 | Result and decoder are those of the specification. |
| `BerDerObject.BerDecoder.DecodeOptionalImplicit` | vendors/ber_dec.h:354-373 | Result and decoder are those of the specification. |
| `BerDerObject.BerDecoder.DecodeList` | vendors/ber_dec.h:379-391 | The loop's result, list and decoder are those of the specification, partial lists included. |
| `BerDerObject.BerDecoder.DecodeOptionalList` | vendors/ber_dec.h:397-404 | Result, list and decoder are those of the specification. |
| `BerDerObject.BerDecoder.RawBytes` | vendors/ber_dec.h:172-179 | The byte loop drains the source, leaves a pushed-back object in place, and yields the rest of the stream if and only if there was none. |
| `BerDerObject.DerEncoder.EncodeOptional` | vendors/der_enc.h:122-128 | Appends the value's encoding unless it is the default. |
| `BerDerObject.DerEncoder.EncodeList` | vendors/der_enc.h:130-136 | Appends the encodings of all values in order. |
| `BerDerObject.DerEncoder.EncodeIf` | vendors/der_enc.h:146-151 | Appends the other encoder's contents on request. |
| `XorBuf.XorChunk` | vendors/mem_ops.h:350-358 | Four 64-bit words combine exactly their 32 bytes, in either byte order. |
| `XorBuf.XorInPlace` | vendors/mem_ops.h:342-426 | The chunked loop is the bytewise combination of the first n bytes, leaves the rest, allows the same buffer twice, and refuses short buffers unchanged. |
| `XorBuf.XorInto` | vendors/mem_ops.h:372-396 | The three-range form is bytewise combination even when output and input coincide, and refuses unequal lengths unchanged. |
| `XorBuf.XorAssign` | vendors/mem_ops.h:446-453 | The shorter operand counts as padded with zeros. |
| `XorBuf.SameMem` | vendors/mem_ops.h:300-308 | The accumulated difference is zero if and only if the bytes are equal. |
| `XorBuf.WordXor` | vendors/mem_ops.h:353-356 | Combining packed words combines their bytes. |
| `XorBuf.XorInvolution` | vendors/mem_ops.h:337-364 | Combining twice with the same bytes restores the first. |
| `XorBuf.XexInverse` | vendors/block_cipher.h:160-172 | XEX decryption undoes XEX encryption wherever the block cipher does so. |
| `XorBuf.XexBlocks` | vendors/block_cipher.h:160-165 | For a block-by-block cipher, XEX on n blocks is n single-block XEX calls. |
| `XorBuf.XexInPlace` | vendors/block_cipher.h:160-172 | The three in-place passes compute XEX on the leading blocks and leave the rest; over a mask that is the data itself they give zeros. |

## Left out

- EncodeIf: does not clear the other encoder, because the body of `get_contents` is not part of this model.
- CountSigWords: takes the count from its definition; the body of `calc_sig_words` is not part of this model.
- GetNextObject, PushBack, PeekNextObject: modelled from their documentation; their bodies are not part of this model.
- `decode_optional_string`: the same branches as `decode_optional` with the string codec and an empty default.
- The TLS channel itself, certificate checking and native-handle setup: a parameter of the stream.
- Boost.Asio executors, work guards, allocators, completion tokens and the convenience overloads that throw.
- Reallocation of the flat buffers: in-flight bytes are a value, so their storage is not modelled.
- Unsigned 64-bit overflow of sizes, and the reserved size that means an unknown count (an `Option` here).
- Big-integer arithmetic, comparison and encoding; constant-time and scrubbing behaviour.
- DER SET ordering, object lengths and tags as bytes; nested `start_cons` beyond lists.
- `clear_mem`, `copy_mem`, typecasts and `buffer_insert`: plain copies and fills.
- Hashing in `process_transaction`, plotting, system statistics, signals and real time in the benchmark; its clock is the window length.
- Exceptions other than an empty or full queue in the benchmark threads.
- The rest of the vendored headers, most of them declarations only, and the QUIDS C++ and Python sources beyond the files named above.

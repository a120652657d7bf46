# mmokit client core: a verified model

A Dafny model of the C# client core of mmokit (`csharp/Mmokit.Sdk.Core`) and of the
decoder and codec that `cmd/sdkgen` generates, with proofs about whole runs.

- **Reliable UDP** (`UdpProto`, `UdpSession`, `UdpTransport`, `UdpTransportClass`, `UdpCalls`,
  `UdpRuns`, `UdpSafety`, `UdpDelivery`). Two transports exchange bytes over a network that may lose, repeat, reorder and
  delay without bound, and writes may fail. Unwrapped ghost numbers show that the 256-slot send ring and the 64-counter
  replay window together make the 16-bit wrap-around harmless: every message is queued at most once
  and unaltered, and an acknowledgement retires exactly what it names, which the peer received. What
  each tick and each delivery does is stated exactly, from the state before it.
- **ChaCha20-Poly1305** (`Poly1305Limbs`, `Poly1305Words`, `Poly1305Finish`, `Poly1305`, `Aead`).
  The 26-bit-limb arithmetic, with every truncation written out, computes the tag of RFC 8439;
  sealing and opening are inverse; the cipher is one the transport runs are stated for.
- **Delta decoding** (`DeltaFields`, `DeltaFrame`, `DeltaDecoder`, `DeltaSafety`, `DeltaRuns`,
  `DeltaScene`). From bytes to baselines and reported entities: decoding deltas refines sending full
  snapshots.
- **Codecs** (`ReflectScalars`, `ReflectCodegen`, `ReflectLaws`, `ReflectReads`, `Json`,
  `JsonLaws`, `JsonTexts`). The code the generator emits is modelled as programs over named places and depth-numbered loop variables;
  Decode undoes Encode for every schema. The JSON scanner undoes the
  printer and answers for every JSON object.
- **Prediction and playback** (`Prediction`, `PredictionCalls`, `PairKeys`, `Gate`, `GateRuns`,
  `Clock`, `Playback`, `PlaybackTargets`, `PlaybackController`, `Interpolation`).

`Words`, `Endian`, `Serial` and `Reals` hold the shared arithmetic. Objects that the source updates
in place are classes whose methods are proved equal to functions on values; the theorems are about
those functions. Locks are atomic steps, an exception is a `None` or a `Threw` result with the state
it leaves behind, and integer widths are explicit. `dafny verify dfyconfig.toml` checks everything.

Where the code does not do what is claimed for it, the model follows the code and states exactly when
the claim holds:

- A decoder baseline and its recorded authority epoch can part when a snapshot throws while decoding
  (`DeltaSafety.BrokenSnapshotDisagrees`, `DeltaSafety.FrameAgrees`).
- The epoch-aware stale test does not always match the push it documents
  (`Interpolation.StaleYetAccepted`, `Interpolation.StaleIffRejected`).
- JSON keys are compared in escaped form (`JsonLaws.EscapedKeyMisread`, `JsonLaws.FieldAnswered`).
- Strings and slices over 65535 do not survive the reflect codec (`ReflectScalars.ScalarReadsBack`,
  `ReflectReads.FieldReadsBack`, `ReflectReads.DecodeInvertsEncode`).
- A reliable send whose first write throws still uses up its sequence number; enough of them lose or
  drop a later message (`UdpTransport.FailedWritesLose`, `UdpTransport.FailedWritesExact`). Up to 767
  in a row change nothing in any run (`UdpSafety.Reachable`).

## Model

| member | source | states |
|---|---|---|
| Serial.NewerUnwrapped | csharp/Mmokit.Sdk.Core/PredictionBuffer.cs:125-129 | For unwrapped numbers less than half the range apart, the 32-bit test orders them as integers, and the 32-bit distance is their difference |
| Serial.NewerAsymmetric | csharp/Mmokit.Sdk.Core/InterpolationCore.cs:240-244 | The test is never true both ways; two numbers are unordered exactly when equal or half the range apart |
| Serial.SeqGreaterUnwrapped | csharp/Mmokit.Sdk.Core/UdpProto.cs:252-253 | The 16-bit test orders numbers less than half the range apart as integers |
| Endian.PutU64BE | csharp/Mmokit.Sdk.Core/UdpProto.cs:50 | Writes the big-endian bytes at the offset and nothing else |
| Endian.GetU64BE | csharp/Mmokit.Sdk.Core/UdpProto.cs:51 | Reads back the big-endian value |
| UdpProto.EncodeHeader | csharp/Mmokit.Sdk.Core/UdpProto.cs:143-196 | The array filled by offset is the header string of each packet type |
| UdpProto.TryDecode | csharp/Mmokit.Sdk.Core/UdpProto.cs:152-185 | A decoded packet splits exactly into authenticated header and sealed body |
| UdpProto.DecodeInvertsEncode | csharp/Mmokit.Sdk.Core/UdpProto.cs:143-250 | Decoding an encoded header followed by any sealed body returns every field |
| UdpProto.AckBodyRoundTrip | csharp/Mmokit.Sdk.Core/UdpProto.cs:198-213 | The acknowledgement body decodes to what was encoded |
| UdpSession.CheckRefines | csharp/Mmokit.Sdk.Core/UdpSession.cs:115-121 | The bitmap test accepts exactly the counters unseen and fewer than 64 behind the highest |
| UdpSession.CommitRefines | csharp/Mmokit.Sdk.Core/UdpSession.cs:123-135 | Committing a counter adds exactly that counter to the represented set |
| UdpSession.ReplayRefinesSet | csharp/Mmokit.Sdk.Core/UdpSession.cs:97-135 | Over every run of opens the bitmap decides as the plain set of accepted counters; a packet that fails authentication changes nothing |
| UdpSession.Session.SealPacket | csharp/Mmokit.Sdk.Core/UdpSession.cs:70-87 | Takes the next counter and seals header and body under it; past the limit it fails but still consumes the counter |
| UdpSession.Session.OpenPacket | csharp/Mmokit.Sdk.Core/UdpSession.cs:97-113 | Checks, authenticates and only then commits; the window and the result are those of the specification |
| UdpSession.Session.Record | csharp/Mmokit.Sdk.Core/UdpSession.cs:123-135 | The in-place shift and OR is the specified commit |
| UdpTransport.TickDeadlines | csharp/Mmokit.Sdk.Core/UdpTransport.cs:260-364 | After a tick that returns true every entry is at most 5000 ms old and under 100 ms since its last send, the last send at most 1000 ms ago, and no acknowledgement is owed; a tick that returns false closed |
| UdpTransport.TickEmission | csharp/Mmokit.Sdk.Core/UdpTransport.cs:260-364 | A tick seals consecutive counters, sends only what the ring or the receive state holds, loses no entry unless it closes, and sends nothing after Disconnect |
| UdpTransport.FailedWritesExact | csharp/Mmokit.Sdk.Core/UdpTransport.cs:87-124 | For every number of failed first writes, which still use up their numbers: exactly when the peer takes the next message, by that number plus one modulo 65536 and, near the whole range, one bit of the peer's bitmap |
| UdpTransport.FailedWritesLose | csharp/Mmokit.Sdk.Core/UdpTransport.cs:87-124 | Two inputs that lose a message: 40000 failures (too far behind) and 65535 (taken for a duplicate) |
| UdpTransportClass.Transport.SendReliable | csharp/Mmokit.Sdk.Core/UdpTransport.cs:87-124 | State, packets and result are those of the value model, including window-full, closed and sink failure |
| UdpTransportClass.Transport.SendUnreliable | csharp/Mmokit.Sdk.Core/UdpTransport.cs:126-136 | Same state and packets as the value model |
| UdpTransportClass.Transport.HandlePacket | csharp/Mmokit.Sdk.Core/UdpTransport.cs:138-176 | Dispatch, replay check, opening and bookkeeping equal the value model on any bytes |
| UdpTransportClass.Transport.TryQueueInbound | csharp/Mmokit.Sdk.Core/UdpTransport.cs:178-188 | Queues unless closed |
| UdpTransportClass.Transport.UpdateRecvTracking | csharp/Mmokit.Sdk.Core/UdpTransport.cs:190-233 | Highest sequence and 32-bit bitmap updated as specified; returns whether to deliver |
| UdpTransportClass.Transport.ProcessAck | csharp/Mmokit.Sdk.Core/UdpTransport.cs:235-249 | The loop over 32 bits is the specified acknowledgement, which UdpCalls.AcknowledgeExact describes slot by slot |
| UdpTransportClass.Transport.MarkAcked | csharp/Mmokit.Sdk.Core/UdpTransport.cs:251-256 | Frees a slot only if it holds that exact sequence |
| UdpTransportClass.Transport.Tick | csharp/Mmokit.Sdk.Core/UdpTransport.cs:260-364 | State, packets and answer are those of the value model, which UdpCalls.TickExact describes from the state before |
| UdpTransportClass.Transport.RetransmitDue | csharp/Mmokit.Sdk.Core/UdpTransport.cs:278-306 | The ring sweep in order, stopping at the first timed-out entry or sink failure; UdpCalls.SweepExact says what it writes |
| UdpTransportClass.Transport.FlushAck | csharp/Mmokit.Sdk.Core/UdpTransport.cs:308-338 | Flushes the acknowledgement once and restores the dirty flag on failure |
| UdpTransportClass.Transport.KeepAlive | csharp/Mmokit.Sdk.Core/UdpTransport.cs:340-353 | Sends an empty packet only after the silence limit |
| UdpTransportClass.Transport.TryRecv | csharp/Mmokit.Sdk.Core/UdpTransport.cs:366-368 | Takes the oldest queued payload |
| UdpTransportClass.Transport.Close | csharp/Mmokit.Sdk.Core/UdpTransport.cs:377-410 | Clears the ring, sends one Disconnect, and is idempotent |
| UdpCalls.AcknowledgePrefix | csharp/Mmokit.Sdk.Core/UdpTransport.cs:235-256 | For every ring, acknowledgement and slot: after any number of its bits the slot is free if it held, in its own place, a sequence named so far, and is otherwise as it was |
| UdpCalls.AcknowledgeExact | csharp/Mmokit.Sdk.Core/UdpTransport.cs:235-256 | An acknowledgement frees exactly the slots whose sequence it names and leaves every other as it was |
| UdpCalls.SweepExact | csharp/Mmokit.Sdk.Core/UdpTransport.cs:278-306 | The sweep writes the due messages before the first expired entry in slot order, up to the first failing write, under consecutive counters, and stamps exactly those |
| UdpCalls.TickExact | csharp/Mmokit.Sdk.Core/UdpTransport.cs:260-364 | A tick returns true if and only if the transport is open, was heard from within 10000 ms, holds no entry older than 5000 ms and every datagram it owes can be written; what it then wrote and its whole new state; and what a tick that returns false wrote before its Disconnect, and its whole new state |
| UdpCalls.TickSends | csharp/Mmokit.Sdk.Core/UdpTransport.cs:260-364 | From the state before a live tick: exactly the slots last sent 100 ms or more ago are sent again, each once; an ACK of the receive state if and only if it is dirty; a keepalive if and only if there is neither and the silence exceeds 1000 ms |
| UdpCalls.StartTicks | csharp/Mmokit.Sdk.Core/UdpTransport.cs:75-84 | A transport that hears nothing is live for 10000 ms from its start, sends one keepalive after 1000 ms, and then only Disconnect |
| UdpCalls.SendAccepted | csharp/Mmokit.Sdk.Core/UdpTransport.cs:87-124 | Exactly when a reliable send is accepted, refused or fails, and that a failure costs only the number and the counter |
| UdpCalls.SentThenTicked | csharp/Mmokit.Sdk.Core/UdpTransport.cs:87-124 | An accepted message is written at once, sent again by the next live tick exactly from 100 ms on, and no tick is live after 5000 ms |
| UdpCalls.UnreliableSent | csharp/Mmokit.Sdk.Core/UdpTransport.cs:126-136 | One datagram under the next counter, or exactly when not |
| UdpDelivery.AckNamesMessages | csharp/Mmokit.Sdk.Core/UdpTransport.cs:235-256 | Of the outstanding messages an admitted acknowledgement names, in wrapped 16-bit numbers, exactly those it means in unwrapped ones |
| UdpDelivery.DeliveryIsExact | csharp/Mmokit.Sdk.Core/UdpTransport.cs:138-256 | In every run, delivering any datagram the peer ever sealed: refused without a trace, or admitted once; then a new reliable message at most 32 behind the newest or a non-empty unreliable one is queued, an acknowledgement takes exactly the messages it names out of the ring, and the peer counts as heard from |
| UdpDelivery.ResendIsReceived | csharp/Mmokit.Sdk.Core/UdpTransport.cs:260-306 | In every run a live tick seals every due message again, and the peer that gets it has received it if it is at most 32 behind its newest |
| UdpDelivery.AckIsProcessed | csharp/Mmokit.Sdk.Core/UdpTransport.cs:308-338 | In every run the acknowledgement of a live tick, once delivered, takes every received message at most 32 behind the newest out of the sender's ring |
| UdpSafety.TrackRefines | csharp/Mmokit.Sdk.Core/UdpTransport.cs:190-233 | Within half the 16-bit range the bitmap delivers exactly the messages never seen and at most 32 behind the highest |
| UdpSafety.HandleWire | csharp/Mmokit.Sdk.Core/UdpTransport.cs:138-176 | Handling the bytes of a sealed datagram equals receiving that datagram |
| UdpSafety.SequenceWindow | csharp/Mmokit.Sdk.Core/UdpTransport.cs:155-164 | Any reliable datagram the replay window admits is at most 1023 ahead of (a full ring with 767 failed writes between) and 318 behind the receiver's highest message, in unwrapped numbers |
| UdpSafety.AckWindow | csharp/Mmokit.Sdk.Core/UdpTransport.cs:235-256 | An acknowledgement the replay window admits is too recent for its 16-bit sequence to have wrapped |
| UdpSafety.AckIsExact | csharp/Mmokit.Sdk.Core/UdpTransport.cs:235-256 | An admitted acknowledgement that names a slot's sequence names the very message in that slot, already received by the peer |
| UdpSafety.StepKeeps | csharp/Mmokit.Sdk.Core/UdpTransport.cs:87-410 | Every call on either side, with any bytes delivered, keeps the whole invariant |
| UdpSafety.Reachable | csharp/Mmokit.Sdk.Core/UdpTransport.cs:87-410 | The invariant holds after every run over a network that loses, repeats, reorders and delays without bound, with any writes failing except that at most 767 reliable sends in a row may throw at their first write |
| UdpSafety.DeliveredAtMostOnce | csharp/Mmokit.Sdk.Core/UdpTransport.cs:155-164 | In every run each reliable message is queued at most once, byte for byte, and taken in queue order |
| UdpSafety.RingKept | csharp/Mmokit.Sdk.Core/UdpTransport.cs:87-124 | A message in the ring stays in its slot until the transport closes or an acknowledgement of that message arrives |
| UdpSafety.RetiredOnlyIfReceived | csharp/Mmokit.Sdk.Core/UdpTransport.cs:235-256 | In every run a slot is freed only if the peer received that exact message and queued it if it has a body |
| UdpSafety.CountersAndTeardown | csharp/Mmokit.Sdk.Core/UdpTransport.cs:377-410 | In every run datagrams carry counters 1, 2, 3, ...; nothing follows Disconnect; every entry sits at its sequence modulo 256, 1 to 256 behind the next |
| Poly1305Words.KeyValue | csharp/Mmokit.Sdk.Core/ChaCha20Poly1305.cs:222-237 | The masked key limbs are the clamped r |
| Poly1305Words.MessageValue | csharp/Mmokit.Sdk.Core/ChaCha20Poly1305.cs:283-292 | The five message limbs are the block's value, with the high bit when set |
| Poly1305Limbs.StepCorrect | csharp/Mmokit.Sdk.Core/ChaCha20Poly1305.cs:294-308 | One block: no 32- or 64-bit intermediate loses information, the limb bounds are kept, and the value is (h + m) * r modulo 2^130 - 5 |
| Poly1305Finish.FinishCorrect | csharp/Mmokit.Sdk.Core/ChaCha20Poly1305.cs:328-370 | Full reduction, constant-time selection and the final addition give (h mod p + s) mod 2^128 |
| Poly1305.Authenticator.constructor | csharp/Mmokit.Sdk.Core/ChaCha20Poly1305.cs:222-237 | Starts with nothing fed |
| Poly1305.Authenticator.Blocks | csharp/Mmokit.Sdk.Core/ChaCha20Poly1305.cs:275-314 | The loop over full blocks |
| Poly1305.Authenticator.Update | csharp/Mmokit.Sdk.Core/ChaCha20Poly1305.cs:239-265 | Whatever the chunking, what is fed is the concatenation |
| Poly1305.Authenticator.UpdatePadding | csharp/Mmokit.Sdk.Core/ChaCha20Poly1305.cs:267-273 | Feeds zeros up to the next multiple of 16 |
| Poly1305.Authenticator.Finish | csharp/Mmokit.Sdk.Core/ChaCha20Poly1305.cs:316-371 | Writes exactly the tag of section 2.5 of RFC 8439 for everything fed |
| Poly1305.RunBlocksHolds | csharp/Mmokit.Sdk.Core/ChaCha20Poly1305.cs:275-314 | Any number of blocks keeps the limbs equal to the RFC accumulator |
| Aead.XorKeyStream | csharp/Mmokit.Sdk.Core/ChaCha20Poly1305.cs:149-162 | In place, block by block, the range is XORed with the keystream and nothing else changes |
| Aead.StreamTwice | csharp/Mmokit.Sdk.Core/ChaCha20Poly1305.cs:149-162 | The stream cipher is its own inverse |
| Aead.ComputeTag | csharp/Mmokit.Sdk.Core/ChaCha20Poly1305.cs:95-111 | Authenticates exactly the padded string of section 2.8 of RFC 8439 |
| Aead.WriteUInt64LE | csharp/Mmokit.Sdk.Core/ChaCha20Poly1305.cs:113-116 | Writes the little-endian length |
| Aead.MacInputInjective | csharp/Mmokit.Sdk.Core/ChaCha20Poly1305.cs:87-111 | No byte can move between header and ciphertext: the authenticated string determines both |
| Aead.SameTag | csharp/Mmokit.Sdk.Core/ChaCha20Poly1305.cs:76-79 | The loop that never returns early decides equality of the tags |
| Aead.Seal | csharp/Mmokit.Sdk.Core/ChaCha20Poly1305.cs:34-55 | Ciphertext and tag, or the argument error |
| Aead.Open | csharp/Mmokit.Sdk.Core/ChaCha20Poly1305.cs:62-84 | The plaintext, or nothing for every kind of failure |
| Aead.OpenInvertsSeal | csharp/Mmokit.Sdk.Core/ChaCha20Poly1305.cs:34-84 | Opening returns a plaintext exactly when the bytes are its sealing |
| Aead.SealedBytes | csharp/Mmokit.Sdk.Core/ChaCha20Poly1305.cs:34-55 | Section 2.8 of RFC 8439 byte by byte: ciphertext under blocks 1, 2, ..., tag under block 0 |
| Aead.KeyBlockUnused | csharp/Mmokit.Sdk.Core/ChaCha20Poly1305.cs:40-49 | No byte is ciphered with the block of the one-time key if and only if the message is at most 64 * (2^32 - 1) bytes |
| Aead.CiphertextIgnoresKeyBlock | csharp/Mmokit.Sdk.Core/ChaCha20Poly1305.cs:40-49 | Up to that length the ciphertext is the same whatever block 0 is |
| Aead.NonceInjective | csharp/Mmokit.Sdk.Core/UdpCrypto.cs:93-101 | Distinct packet counters give distinct nonces |
| Aead.CipherIsCorrect | csharp/Mmokit.Sdk.Core/UdpCrypto.cs:107-120 | This cipher satisfies what the transport runs assume of sealing and opening |
| DeltaFields.SplitVarTail | cmd/sdkgen/backend_csharp_delta.go:170-177 | A trailing -1 is split off as the tail marker |
| DeltaFields.Encode | pkg/quantize/delta.go:70-111 | Produces a mask of the changed fields and exactly those fields, or nothing when none changed |
| DeltaFields.ApplyDelta | csharp/Mmokit.Sdk.Core/DeltaDecoderCore.cs:215-256 | In place on a clone; equal to the specification, exceptions included |
| DeltaFields.ApplyRestores | csharp/Mmokit.Sdk.Core/DeltaDecoderCore.cs:215-256 | What any delta restores: the new fixed part, and the new tail if it changed |
| DeltaFields.ApplyInvertsEncode | csharp/Mmokit.Sdk.Core/DeltaDecoderCore.cs:215-256 | For any layout, with or without tail, applying a delta to the old snapshot gives the new one |
| DeltaFields.NothingChanged | pkg/quantize/delta.go:107-110 | No delta exactly when the snapshots are equal |
| DeltaFrame.HeaderAt | csharp/Mmokit.Sdk.Core/DeltaDecoderCore.cs:156-170 | The printed header decodes to its fields |
| DeltaFrame.FullAt | csharp/Mmokit.Sdk.Core/DeltaDecoderCore.cs:173-185 | A printed full entry decodes to itself and ends where it was printed |
| DeltaFrame.DeltaAt | csharp/Mmokit.Sdk.Core/DeltaDecoderCore.cs:187-196 | The same for delta entries |
| DeltaFrame.DecodeRemovedIDs | csharp/Mmokit.Sdk.Core/DeltaDecoderCore.cs:198-203 | The loop reads the listed identifiers or fails past the end |
| DeltaFrame.FlagsKept | pkg/quantize/wireformat.go:97-111 | The acknowledgement flag says whether a trailer follows; the fresh-snapshot flag is untouched |
| DeltaDecoder.FenceIsExact | cmd/sdkgen/backend_csharp_delta.go:43-73 | A frame passes exactly when its (stream, sequence) position is ahead in serial order; a new stream clears all baselines and epochs |
| DeltaDecoder.Decoder.Accept | cmd/sdkgen/backend_csharp_delta.go:43-73 | The fence on the fields; a refused frame changes none of them |
| DeltaDecoder.Decoder.TakeFullEntry | cmd/sdkgen/backend_csharp_delta.go:86-98 | Epoch fence, baseline replacement and exception order of a full entry, as DeltaScene.FullEntryExact describes them |
| DeltaDecoder.Decoder.TakeDeltaEntry | cmd/sdkgen/backend_csharp_delta.go:101-112 | A delta is applied only to a baseline of the same epoch and type, as DeltaScene.DeltaEntryExact describes it |
| DeltaDecoder.Decoder.DecodeFrame | cmd/sdkgen/backend_csharp_delta.go:75-137 | The new state and the outcome of any bytes are those of the value model, whose reports DeltaScene.ReportsAreExact describes |
| DeltaSafety.FullAgrees | cmd/sdkgen/backend_csharp_delta.go:86-98 | Exactly when one full entry leaves a baseline out of step with the recorded epoch |
| DeltaSafety.BrokenSnapshotDisagrees | cmd/sdkgen/backend_csharp_delta.go:86-98 | A run of two frames, as bytes, after which it is: the epoch is raised before the snapshot fails to decode |
| DeltaSafety.FrameAgrees | cmd/sdkgen/backend_csharp_delta.go:75-131 | A frame of any bytes keeps every baseline at its recorded epoch if and only if no such entry occurs in it |
| DeltaSafety.AlwaysAgree | cmd/sdkgen/backend_csharp_delta.go:75-131 | Over whole runs of any bytes: the agreement holds after every frame if and only if no frame breaks it |
| DeltaSafety.PositionAdvances | cmd/sdkgen/backend_csharp_delta.go:43-78 | A frame not ahead is rejected and changes nothing; any other moves the position to its own |
| DeltaSafety.FrameEpochs | cmd/sdkgen/backend_csharp_delta.go:43-131 | What any frame does to a recorded epoch, whether applied, rejected or thrown midway, inside a stream or without one: dropped, or raised to the running serial maximum of what was handled |
| DeltaSafety.EpochsOverRuns | cmd/sdkgen/backend_csharp_delta.go:43-131 | Over any part of any run in which an entity is not removed, does not exit, is not omitted from a fresh snapshot and the stream does not change, its epoch is the running serial maximum of all it was sent |
| DeltaSafety.EpochMovesForward | cmd/sdkgen/backend_csharp_delta.go:86-131 | So it stays recorded and never moves back, and is the largest sent, in unwrapped numbers within one half of the range |
| Serial.LatestIsMax | csharp/Mmokit.Sdk.Core/InterpolationCore.cs:240-244 | Within one half of the range the running serial maximum is the maximum |
| DeltaRuns.FrameInStep | cmd/sdkgen/backend_csharp_delta.go:75-137 | From bytes: a frame that describes the step between two worlds takes the decoder from one to the other |
| DeltaRuns.OldFrameIgnored | cmd/sdkgen/backend_csharp_delta.go:43-73 | A duplicate or older frame at most half the serial range behind is rejected without effect |
| DeltaRuns.BaselinesAreSnapshots | cmd/sdkgen/backend_csharp_delta.go:43-137 | Delta decoding refines full snapshots: for every sender history and every lossless schedule with old frames mixed in, the baselines are the last world sent |
| DeltaScene.FullEntryExact | cmd/sdkgen/backend_csharp_delta.go:86-98 | Any full entry in any state: dropped when behind its epoch, throwing when its snapshot is broken, else decoded against the entity last made for its identifier under the same epoch and type, remembered and reported |
| DeltaScene.DeltaEntryExact | cmd/sdkgen/backend_csharp_delta.go:101-112 | Any delta entry in any state: dropped, throwing without effect, or patched, decoded against that entity, remembered and reported |
| DeltaScene.WatchLast | cmd/sdkgen/backend_csharp_delta.go:86-112 | What is remembered of an entity is its last sighting, decoded against what was remembered then |
| DeltaScene.FrameShows | cmd/sdkgen/backend_csharp_delta.go:75-137 | From bytes: an accepted frame is reported, entered and updated entities in order, exactly as by a client that gets whole snapshots, and the baselines become what that client remembers |
| DeltaScene.ReportsAreExact | cmd/sdkgen/backend_csharp_delta.go:43-137 | For every sender history and every lossless schedule: the next frame is reported as by that client, duplicates and older frames are rejected, and the baselines, entities included, are what it remembers |
| DeltaSafety.PositionStarts | cmd/sdkgen/backend_csharp_delta.go:43-60 | A frame without a stream epoch is never fenced off; the first with one sets the position and reports the change |
| ReflectScalars.ReflectWriter.WriteUnsigned | csharp/Mmokit.Sdk.Core/ReflectCodec.cs:17-24 | Appends the low bytes, least significant first |
| ReflectScalars.ReflectWriter.Write | csharp/Mmokit.Sdk.Core/ReflectCodec.cs:17-42 | Every write call appends its specified bytes |
| ReflectScalars.ReflectReader.ReadUnsigned | csharp/Mmokit.Sdk.Core/ReflectCodec.cs:56-62 | Reads the value and advances exactly its width |
| ReflectScalars.ReflectReader.Read | csharp/Mmokit.Sdk.Core/ReflectCodec.cs:56-84 | Every read call returns the specified value and cursor |
| ReflectScalars.ScalarReadsBack | csharp/Mmokit.Sdk.Core/ReflectCodec.cs:17-86 | A read undoes its write exactly unless it is a string over 65535 bytes |
| ReflectLaws.FieldEncodes | cmd/sdkgen/backend_csharp_reflect.go:226-249 | The emitted encode of any field appends the wire format of its value |
| ReflectLaws.FieldDecodes | cmd/sdkgen/backend_csharp_reflect.go:199-223 | The emitted decode of any field stores the value at its place, stops behind it, and leaves every other variable alone; loop variables never clash |
| ReflectScalars.ReadHolds | csharp/Mmokit.Sdk.Core/ReflectCodec.cs:56-86 | Whatever the bytes, a value that is read is of its type and short enough to be written |
| ReflectReads.FieldReadsBack | cmd/sdkgen/backend_csharp_reflect.go:199-249 | A field of any kind, scalar, struct, scalar slice or struct slice, comes back from its own bytes exactly when every string and slice in it is shorter than 65536 |
| ReflectReads.DecodedFits | cmd/sdkgen/backend_csharp_reflect.go:199-223 | Whatever the bytes, a decoded message is of the schema's type with every length below 65536 |
| ReflectReads.DecodeInvertsEncode | cmd/sdkgen/backend_csharp_reflect.go:254-286 | For every schema and every message of its type: Encode writes its wire format, and Decode gives it back and consumes exactly those bytes, whatever follows, if and only if every string and slice is shorter than 65536 |
| Json.EscapeText | csharp/Mmokit.Sdk.Core/MmokitAuth.cs:387-406 | Escapes unit by unit |
| Json.PrintObject | csharp/Mmokit.Sdk.Core/MmokitAuth.cs:374-385 | Members separated by commas inside braces |
| Json.EndOfString | csharp/Mmokit.Sdk.Core/MmokitAuth.cs:515-523 | The closing quote, passing over escapes |
| Json.ValueStart | csharp/Mmokit.Sdk.Core/MmokitAuth.cs:476-511 | The start of a top-level key's value |
| Json.ReadString | csharp/Mmokit.Sdk.Core/MmokitAuth.cs:409-446 | The value of a top-level string field, or nothing on malformed input |
| JsonLaws.FieldReadsBack | csharp/Mmokit.Sdk.Core/MmokitAuth.cs:374-446 | For any map and any field the scanner returns the value printed under that key text, whatever quotes, braces or escapes the values hold |
| JsonLaws.FieldAnswered | csharp/Mmokit.Sdk.Core/MmokitAuth.cs:409-523 | Which entry answers: the one whose escaped key is the field; nothing exactly when there is none |
| JsonLaws.EscapedKeyMisread | csharp/Mmokit.Sdk.Core/MmokitAuth.cs:496-503 | Keys that need escaping can be confused: keys are compared in their escaped form |
| JsonLaws.ScannerIsTheMap | csharp/Mmokit.Sdk.Core/MmokitAuth.cs:374-446 | With keys that need no escaping the scanner is the map |
| JsonTexts.ScannerAnswers | csharp/Mmokit.Sdk.Core/MmokitAuth.cs:409-523 | For every JSON object of RFC 8259, with any white space, escapes and nesting, and every field: the decoded text of the first outermost member whose key is written so, if it is a string, else nothing |
| JsonTexts.StringReads | csharp/Mmokit.Sdk.Core/MmokitAuth.cs:421-445 | Every string of section 7 of RFC 8259 is read as the code units it stands for, short and four-digit escapes included |
| JsonTexts.PrinterPrintsJson | csharp/Mmokit.Sdk.Core/MmokitAuth.cs:374-406 | What is printed is a JSON object whose members decode to the entries in order, with no control character unescaped |
| Prediction.PredictionBuffer.TryRecord | csharp/Mmokit.Sdk.Core/PredictionBuffer.cs:142-166 | Refuses, evicts or appends as specified |
| Prediction.PredictionBuffer.AcknowledgeThrough | csharp/Mmokit.Sdk.Core/PredictionBuffer.cs:178-198 | Removes the covered prefix; a stale acknowledgement changes nothing |
| Prediction.PredictionBuffer.Replay | csharp/Mmokit.Sdk.Core/PredictionBuffer.cs:206-222 | Folds the pending inputs in order |
| Prediction.PredictionBuffer.Reconcile | csharp/Mmokit.Sdk.Core/PredictionBuffer.cs:231-253 | Acknowledges, then replays the rest |
| Prediction.PendingIsSuffix | csharp/Mmokit.Sdk.Core/PredictionBuffer.cs:125-198 | In every run pending is exactly the unacknowledged inputs, or the newest Capacity of them, across wrap-around and after either reset |
| Prediction.ReconcileIsExact | csharp/Mmokit.Sdk.Core/PredictionBuffer.cs:231-253 | Reconciling the state after input k gives the state after all issued inputs |
| Prediction.ReconcileNeedsRoom | csharp/Mmokit.Sdk.Core/PredictionBuffer.cs:231-253 | That holds exactly when k is not behind the frontier and no input after k was evicted |
| PredictionCalls.AlwaysBalanced | csharp/Mmokit.Sdk.Core/PredictionBuffer.cs:142-198 | After any calls with any numbers: pending is the part of the inputs taken that is behind those evicted and acknowledged, in order, within capacity and in serial order, and the drop counter is exact |
| PredictionCalls.RecordAnswers | csharp/Mmokit.Sdk.Core/PredictionBuffer.cs:142-166 | After any calls an input is refused exactly when it is not newer than the latest acknowledgement or than the newest pending input; a taken one evicts and reports the oldest exactly when full |
| PredictionCalls.AcknowledgeAnswers | csharp/Mmokit.Sdk.Core/PredictionBuffer.cs:178-198 | After any calls a stale acknowledgement changes nothing; a newer one removes from the front exactly as long as it covers |
| PairKeys.PairKeyInjective | csharp/Mmokit.Sdk.Core/ReconciliationGate.cs:65-67 | The text key determines epoch, tick and sequence |
| PairKeys.PrefixIsEpoch | csharp/Mmokit.Sdk.Core/ReconciliationGate.cs:166-181 | The prefix filter keeps exactly the keys of one epoch |
| Gate.AddBounded | csharp/Mmokit.Sdk.Core/ReconciliationGate.cs:78-89 | The key moves to the back; only the newest keys stay |
| Gate.RetainPrefix | csharp/Mmokit.Sdk.Core/ReconciliationGate.cs:166-181 | The backward loop keeps exactly the keys with the prefix, in order |
| Gate.PutKeeps | csharp/Mmokit.Sdk.Core/ReconciliationGate.cs:78-89 | The list stays a duplicate-free listing of the dictionary within the limit, and only the oldest keys are evicted |
| Gate.ReconciliationGate.Observe | csharp/Mmokit.Sdk.Core/ReconciliationGate.cs:99-116 | Stream changes as specified, and as Gate.EpochIsStream and Gate.ObserveAnswers describe them, keeping the invariant |
| Gate.ReconciliationGate.ResetFor | csharp/Mmokit.Sdk.Core/ReconciliationGate.cs:119-141 | Keeps only the seed of this very frame, keeping the invariant |
| Gate.ReconciliationGate.TryStageSeed | csharp/Mmokit.Sdk.Core/ReconciliationGate.cs:184-205 | Pairs or stages as specified, keeping the invariant |
| Gate.ReconciliationGate.TryStageFrame | csharp/Mmokit.Sdk.Core/ReconciliationGate.cs:208-223 | Pairs or stages as specified, keeping the invariant |
| Gate.ReconciliationGate.Reset | csharp/Mmokit.Sdk.Core/ReconciliationGate.cs:225-236 | Back to the start, keeping the invariant |
| Gate.AlwaysSound | csharp/Mmokit.Sdk.Core/ReconciliationGate.cs:78-236 | In every run both tables are bounded listings, nothing waits on both sides, every value waits under its own key, and staged seeds are of the current or a forward epoch |
| Gate.TablesHoldNewest | csharp/Mmokit.Sdk.Core/ReconciliationGate.cs:78-236 | In every run each table is a suffix of the history of what was staged and not used or cleared since, in the order of last staging: no older key outlasts a newer one |
| Gate.NothingEvicted | csharp/Mmokit.Sdk.Core/ReconciliationGate.cs:78-236 | While no more than the limit were ever waiting, nothing is evicted |
| Gate.EpochIsStream | csharp/Mmokit.Sdk.Core/ReconciliationGate.cs:99-116 | In every run the recorded epoch is the serially latest one observed since the last reset, and no other call touches it |
| Gate.ObserveAnswers | csharp/Mmokit.Sdk.Core/ReconciliationGate.cs:99-116 | After every run observing returns true exactly when an epoch was observed since the last reset and this one is serially newer than the latest of them |
| GateRuns.GateIsPlain | csharp/Mmokit.Sdk.Core/ReconciliationGate.cs:78-236 | After every run the gate holds, in order, the records of a gate of two plain lists that compares identities and reads its stream off the actions |
| GateRuns.AnswersArePlain | csharp/Mmokit.Sdk.Core/ReconciliationGate.cs:99-223 | After every run it answers every call as that gate does |
| Gate.PairsMatch | csharp/Mmokit.Sdk.Core/ReconciliationGate.cs:208-223 | A frame is paired exactly when a seed of the same (epoch, tick, sequence) waits; then neither half is left |
| Gate.SeedPairsMatch | csharp/Mmokit.Sdk.Core/ReconciliationGate.cs:184-205 | The same for a seed |
| Gate.UsedOnce | csharp/Mmokit.Sdk.Core/ReconciliationGate.cs:184-223 | In every run an identity is paired at most as often as each half of it was staged, counting what still waits |
| Clock.ClockSync.Observe | csharp/Mmokit.Sdk.Core/ClockSync.cs:88-106 | The offset is the maximum of the last 40 readings since the reset |
| Clock.ClockSync.Reset | csharp/Mmokit.Sdk.Core/ClockSync.cs:108-115 | Forgets all readings |
| Playback.Configured | csharp/Mmokit.Sdk.Core/AdaptivePlaybackController.cs:133-148 | Every option gives a sane configuration |
| Playback.CountsAreExact | csharp/Mmokit.Sdk.Core/AdaptivePlaybackController.cs:200-241 | Received, duplicate and out-of-order add up to the frames observed; received and lost add up to the spans of the streams |
| Playback.OneStream | csharp/Mmokit.Sdk.Core/AdaptivePlaybackController.cs:217-241 | Within one stream received plus lost is the highest number minus the first plus one |
| Playback.AlwaysInBounds | csharp/Mmokit.Sdk.Core/AdaptivePlaybackController.cs:243-300 | In every interleaving the target stays within its bounds |
| Playback.TargetBetween | csharp/Mmokit.Sdk.Core/AdaptivePlaybackController.cs:291-299 | The target moves toward what the frame asks for and never past it |
| PlaybackTargets.TargetMoves | csharp/Mmokit.Sdk.Core/AdaptivePlaybackController.cs:291-299 | The target covers exactly the attack factor's share of the way to the wanted delay when that is above it, the decay factor's when not; strictly closer unless the factor is zero or it is there |
| PlaybackTargets.ExcessMoves | csharp/Mmokit.Sdk.Core/AdaptivePlaybackController.cs:286-288 | The same identity for the excess |
| PlaybackTargets.FrameExact | csharp/Mmokit.Sdk.Core/AdaptivePlaybackController.cs:243-299 | Every number of the controller after any frame: pressure the larger of the old and the cost of the gap or 85 percent of the old, jitter by an eighth, excess and target by their factors |
| PlaybackTargets.PressureIsWorst | csharp/Mmokit.Sdk.Core/AdaptivePlaybackController.cs:243-255 | In every run the loss pressure is the largest, over all gaps so far, of the gap's cost faded by 85 percent for each healthy frame since |
| PlaybackTargets.QuietApproach | csharp/Mmokit.Sdk.Core/AdaptivePlaybackController.cs:291-299 | While nothing is lost or measured, n frames leave exactly the n-th power of one share of the distance to the wanted delay, without overshooting |
| PlaybackTargets.FirstRender | csharp/Mmokit.Sdk.Core/AdaptivePlaybackController.cs:314-322 | The first render puts the delay exactly on the target at normal speed |
| PlaybackTargets.RenderExact | csharp/Mmokit.Sdk.Core/AdaptivePlaybackController.cs:324-356 | Every later render advances the cursor by the elapsed time corrected by the gain, within the rate limits, as far as the server's time allows, and reports the delay and rate of that move |
| PlaybackTargets.SaneIsKept | csharp/Mmokit.Sdk.Core/AdaptivePlaybackController.cs:133-148 | Options within their limits are kept |
| PlaybackTargets.GapIsLoss | csharp/Mmokit.Sdk.Core/AdaptivePlaybackController.cs:217-241 | The gap that raises the pressure is the number of frames just counted as lost |
| Playback.PressureMoves | csharp/Mmokit.Sdk.Core/AdaptivePlaybackController.cs:243-255 | Lost frames raise the loss pressure by at least their time, up to the range; a healthy frame strictly lowers it |
| Playback.StampMoves | csharp/Mmokit.Sdk.Core/AdaptivePlaybackController.cs:257-289 | A stamped frame moves excess and jitter toward what it measured and never past it, jitter by an eighth |
| Playback.CursorMoves | csharp/Mmokit.Sdk.Core/AdaptivePlaybackController.cs:305-356 | The cursor never moves back nor past the later of itself and the server's time |
| Playback.NeverRewinds | csharp/Mmokit.Sdk.Core/AdaptivePlaybackController.cs:305-356 | In every interleaving no later cursor is behind an earlier one |
| Playback.ErrorShrinks | csharp/Mmokit.Sdk.Core/AdaptivePlaybackController.cs:324-356 | One render within the convergence window: the delay error keeps its sign and does not grow |
| Playback.Converges | csharp/Mmokit.Sdk.Core/AdaptivePlaybackController.cs:324-356 | The same over any number of renders with fixed offset and target |
| Playback.ErrorContracts | csharp/Mmokit.Sdk.Core/AdaptivePlaybackController.cs:324-356 | One render shrinks the error by at least the elapsed time times the lesser of the rate limit and error over window; strictly unless the limit is zero |
| Playback.ConvergesGeometrically | csharp/Mmokit.Sdk.Core/AdaptivePlaybackController.cs:324-356 | Where no rate limit binds, each render takes off the fraction of the window that elapsed, so the error shrinks geometrically |
| PlaybackController.AdaptivePlaybackController.ObserveFrame | csharp/Mmokit.Sdk.Core/AdaptivePlaybackController.cs:190-301 | Counts, timing and clock history change as specified |
| PlaybackController.AdaptivePlaybackController.RenderTime | csharp/Mmokit.Sdk.Core/AdaptivePlaybackController.cs:305-356 | The cursor moves as specified; nothing happens before the first reading |
| Interpolation.SampleRing.PushSample | csharp/Mmokit.Sdk.Core/InterpolationCore.cs:164-209 | Ring, epoch and status change as specified; a size that is not positive is an error |
| Interpolation.AlwaysSorted | csharp/Mmokit.Sdk.Core/InterpolationCore.cs:164-209 | In every run the ring is sorted by time and within its size |
| Interpolation.EpochAdvances | csharp/Mmokit.Sdk.Core/InterpolationCore.cs:164-209 | The epoch only moves to a serially newer one or from none; a rejected sample changes nothing; an accepted one is the newest |
| Interpolation.EpochIsLatest | csharp/Mmokit.Sdk.Core/InterpolationCore.cs:164-209 | In every run the epoch is the running serial maximum of the epochs pushed, whatever the times |
| Interpolation.EpochNeverFalls | csharp/Mmokit.Sdk.Core/InterpolationCore.cs:164-209 | Once set it never moves back in any later state, within one half of the range |
| Interpolation.RingIsNewest | csharp/Mmokit.Sdk.Core/InterpolationCore.cs:164-209 | In every run the ring holds the newest samples of the unbounded timeline the pushes make, and answers a push as that history says |
| Interpolation.PoseIsExact | csharp/Mmokit.Sdk.Core/InterpolationCore.cs:251-342 | At any time, from the samples: held, coasting along the velocity within the cap, or every coordinate and the short-way rotation as far along from one sample to the next as the time is from the start of motion to the second |
| Interpolation.LerpAngle | csharp/Mmokit.Sdk.Core/InterpolationCore.cs:141-147 | The two loops take the short way round |
| Interpolation.RotationIsShort | csharp/Mmokit.Sdk.Core/InterpolationCore.cs:141-147 | At most half a turn, starting at the first angle and ending at the second up to full turns |
| Interpolation.StaleIffRejected | csharp/Mmokit.Sdk.Core/InterpolationCore.cs:222-236 | The stale test agrees with the push if and only if it is not a first epoch arriving with an older time |
| Interpolation.StaleYetAccepted | csharp/Mmokit.Sdk.Core/InterpolationCore.cs:222-236 | That exception is real |
| Interpolation.InterpolateRing | csharp/Mmokit.Sdk.Core/InterpolationCore.cs:251-342 | The loop equals the specification and no input divides by zero |
| Interpolation.BlendIsLinear | csharp/Mmokit.Sdk.Core/InterpolationCore.cs:327-338 | Between two samples a coordinate moves at constant speed from one to the other |
| Interpolation.ExtensionIsLinear | csharp/Mmokit.Sdk.Core/InterpolationCore.cs:304-325 | Past the newest sample a coordinate follows its velocity for the extrapolated time |
| Interpolation.InterpolationIsSafe | csharp/Mmokit.Sdk.Core/InterpolationCore.cs:251-342 | On a sorted ring it extrapolates only past the newest sample and within the cap, and interpolates only between two neighbours around the render time, inside their box |

## Left out

- UdpSafety.Reachable: runs assume that at most 767 reliable sends in a row throw at their first write, that opening calls do not overlap, that at least 259 counters are left before each call, and an ideal cipher in which only sealed packets open. All other writes may fail, and a failed write may or may not have reached the network.
- Eventual delivery: `UdpDelivery.ResendIsReceived` and `UdpDelivery.AckIsProcessed` cover one resend and one acknowledgement that arrive. A message first seen more than 32 behind the highest is never received, and its sender times out.
- JsonTexts.ScannerAnswers: texts that are not JSON objects are read as `Json.ReadString` specifies; nothing more is claimed of them.
- The ChaCha20 block function is an arbitrary function to 64 bytes; HKDF, HMAC and key derivation are not modelled.
- The handshake packets, tokens, sockets, threads and the blocking receive.
- DeltaRuns.BaselinesAreSnapshots: frames carry a stream epoch, and an older frame is at most half the serial range behind; frames without an epoch have no fence in the code, so duplicates of those are applied again.
- Decoding a snapshot into an entity is a parameter of the decoder: field dequantisation, quaternions and the initial-field fallback inside it are not modelled.
- Generated class and field names, type identifiers and the dispatcher; field names within a class are assumed distinct, as the C# compiler demands.
- UTF-8 conversion: a string of the reflect codec is its UTF-8 bytes, and floats are bit patterns.
- The integer fields of the JSON reader and the HTTP part of MmokitAuth.cs.
- Prediction.PendingIsSuffix: inputs are numbered consecutively, acknowledgements name issued inputs, and the unacknowledged span stays under half the serial range.
- Read-only accessors and convenience overloads of the client classes, such as the gate's two seed queries, the legacy sample push and the frame-stamp scan of the clock.
- IEEE rounding: times, positions and rates are real numbers; NaN and infinities are absent values.
- Interpolation.InterpolateRing: the interpolation of two quaternions is an arbitrary function, so slerp itself is not modelled, and half a turn is any positive number.
- Smoothing and measuring of prediction corrections, and playback metrics beyond the counters.
- The server packages other than the delta and frame encoders, the registration facade, and the TypeScript output of the generator, which repeats the same decoder.

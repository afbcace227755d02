# mangOH bridge: model and proofs

This project models the Linux side of the Arduino bridge and proves what its protocols, buffers and parsers promise.

**The serial protocol** (`Bytes`, `ShiftRegister`, `Crc`, `Packet`, `Session`, `SessionStream`, `SessionLine`,
`SessionSafety`, `SessionDispatch`, `BridgeObject`). The bytes of `packet.c` and `bridge.c`: the table-free CRC against
the bit-serial register with the reflected polynomial 0x8408 (appendix C of RFC 1662, without the final complement),
frames, the stages of a reception, the dispatch, and the open, closed and reset states. `Session` is the specification on
values; `SessionDispatch` says independently of it what every frame causes. `BridgeObject.Bridge` is the object that is
updated in place, each method proved to do what the specification says. Results of `select`, `read`, `write` and `close`,
of registered resets and of command processors are part of an event, so a theorem about every event is a theorem about
every behaviour of the system.

**The slots** (`Sockets`, `SocketTheorems`, `SocketEffects`, `SocketObjects`). Ten connection slots with two 8 KiB
buffers each, as values and as objects over fixed arrays; `SocketEffects` says what each request and each pass does to
which slot.

**The receive buffers and notifications** (`ReceiveBuffers`, `Notify`, `Decimal`, `Text`). The 16 KiB buffers that
`airVantage.c` and `mailbox.c` fill and the board drains, and the `|key|value|time` texts one side prints and the other
side takes apart.

**JSON** (`JsonReader`, `JsonSteps`, `JsonBlocks`, `JsonLoss`, `JsonOrder`, `JsonDestroy`, `JsonInput`, `JsonLayout`,
`JsonTexts`, `JsonSound`, `JsonRefusal`, `JsonPrefix`, `JsonEscape`, `StrReplace`, `JsonValue`, `JsonWriter`,
`PowersOfTwo`, `JsonBuffer`, `JsonOutput`, `JsonRoundTrip`). `JsonReader` is the reader as functions of its cursor, with
the branches of the code, early returns included; `JsonInput.Reader` is the object with the shared length and the loops.
`JsonLayout` is the concrete syntax the reader accepts: `JsonTexts` proves that all of it is read, `JsonSound` that
nothing else is read to its end. `JsonWriter` is the writer as a list of buffer operations, `JsonBuffer` what these do to
a buffer that grows, `JsonOutput.Output` the buffer itself.

Where the code does less than one would expect, a lemma names an input that shows it and another says exactly when the
code does what is expected:

- A socket whose `close` fails leaves a slot that is neither free nor in use (`RefusedCloseLeavesStuckSlot`; `StepShape`,
  `CloseKeepsShape`, `ConnectKeepsShape`).
- A connect while the next slot is in use drops the client of that slot, and one that cannot be answered drops the slot
  behind the new one (`RefusedConnectDropsTheClient`, `UnansweredConnectDropsTheNextSlot`; `ConnectSparesOthers`).
- The writer adds half of the new size to the bytes it believes free, whatever it had before: it can store characters past
  its block without noticing (`LeavesBlock`), abort (`LongString`), or come out whole with a wrong count
  (`UncountedString`). `FitsIsExact` says which runs come out whole, `RoomIsExact` which also keep the count.
- The comma between two members is written without asking for room (`CommaAborts`; `FitsIsExact`).
- `getNextPowerOfTwo` does not end above 2^31 (`NeverEnds`); the length of a string is exact below 2^31 (`DoublingExact`).
- An object without its colon is accepted, and its key leaks (`NoColonLosesKey`, `MissingColon`; `LosesExactly`,
  `ReadLoses`).
- An array that ends the text is taken as complete without its bracket (`UnclosedArrayAccepted`; `UsedUpExactly`,
  `AcceptedExactly`). Of an object no part is accepted (`NoPartAccepted`).
- An empty frame is dispatched on what an earlier frame left in the packet (`EmptyFrameCallsStaleCommand`); exactly the
  frames with a payload are dispatched on their own (`OwnPayloadExactly`).
- Quotes and backslashes in strings do not come back (`YieldsNoQuote`; `ComesBack`).
- A notification with an empty key, or one that is cut off, is misread (`EmptyKey`, `CutInValue`, `CutInKey`;
  `ValueSurvives`, `TimestampSurvives`, `ValueSurvivesFollowed`).

`dafny verify dfyconfig.toml` checks everything.

## Model

| member | source | states |
|---|---|---|
| `Crc.ByteUpdate` | bridgeComponent/packet.c:20-28 | One byte of the update is eight steps of the bit-serial register with polynomial 0x8408 (RFC 1662, appendix C), low bit first, for every register and byte |
| `Crc.CrcUpdate` | bridgeComponent/packet.c:13-31 | The loop computes the CRC of the sequence for every start value and every length, the empty one included |
| `Crc.UpdateConcat` | bridgeComponent/packet.c:13-31 | Feeding a sequence in two parts gives the CRC of the whole; over every sequence the byte-wise CRC is the bit-serial one |
| `Crc.DifferenceRuns` | bridgeComponent/packet.c:20-28 | The CRCs of two sequences of one length differ by what their difference alone leaves in an empty register: the CRC is linear |
| `Crc.BurstDetected` | bridgeComponent/packet.c:13-31 | Sequences of one length that differ, inside 16 consecutive bits, have different CRCs from every start value |
| `Crc.OddDamageDetected` | bridgeComponent/packet.c:13-31 | So do sequences that differ in an odd number of bits, anywhere |
| `Crc.CheckValue` | bridgeComponent/packet.h:21 | The published check value of this polynomial and start value: the CRC of the digits 1 to 9 is 0x6F91 |
| `Packet.FrameLayout` | bridgeComponent/packet.c:33-52 | A frame is the start byte, the index, the length and the CRC with their high bytes first, and the payload between them |
| `SessionStream.CleanRead` | bridgeComponent/bridge.c:40-106 | Partial reads of any sizes put together what one read would have returned and leave the rest of the stream |
| `SessionStream.FrameReceived` | bridgeComponent/bridge.c:141-232 | On a clean line a frame with any CRC is taken off the stream completely, decodes to its index and payload, and is accepted if and only if the CRC is that of its header and payload |
| `SessionStream.StreamDecoded` | bridgeComponent/bridge.c:426-465 | For every stream of frames, damaged frames, impossible lengths and noise, repeated event handling accepts exactly the undamaged frames, index and payload, in order, and leaves what follows untouched, whatever resets, processors and writes do |
| `SessionLine.SplitIs` | bridgeComponent/bridge.c:141-232 | Every byte string is the wire form of items (frames, damaged frames, impossible lengths, noise) followed by the beginning of one more |
| `SessionLine.SplitUnique` | bridgeComponent/bridge.c:141-232 | No other items and no other beginning make up that byte string: what a line holds is one thing |
| `SessionLine.LineDecoded` | bridgeComponent/bridge.c:426-465 | Whatever bytes are on the line, as many events as it has items accept exactly the undamaged frames among them, in order, and leave the incomplete item |
| `SessionStream.BurstIsDamage` | bridgeComponent/bridge.c:221-226 | A frame whose index or payload was changed inside 16 consecutive bits is one of the damaged frames of the stream theorem |
| `SessionStream.SendIsFrame` | bridgeComponent/bridge.c:802-838 | A completed response is length + 6 bytes on the line and is the frame that decodes to the packet's index and the bytes sent |
| `SessionStream.OneAnswer` | bridgeComponent/bridge.c:366-465 | A frame that reaches the dispatch is one request; all responses to it carry its index; processed with `LE_OK` by a processor that answers once, it is answered exactly once |
| `SessionDispatch.ReadCutShort` | bridgeComponent/bridge.c:40-106 | A read that gets parts and then nothing stores exactly those parts; the port is restarted unless closing it fails |
| `SessionDispatch.SendWorks` | bridgeComponent/bridge.c:108-139 | When no `write` fails, a send puts the whole frame on the line and is one response |
| `SessionDispatch.SendCut` | bridgeComponent/bridge.c:802-838 | Every send puts a beginning of the frame on the line, and is a response, with result 0, if and only if that is all of it |
| `SessionDispatch.ResetOpens` | bridgeComponent/bridge.c:296-364 | In either state, a frame `XX100` with all resets succeeding calls all of them in order, answers 0 and the version, and opens the bridge |
| `SessionDispatch.ResetFails` | bridgeComponent/bridge.c:492-515 | The first reset that fails is the last one called and its result the result; nothing is answered and the state stays |
| `SessionDispatch.ResetRefused` | bridgeComponent/bridge.c:296-345 | Every other frame that starts with `XX`, except a close to an open bridge, is answered with one NACK, and the state stays |
| `SessionDispatch.CloseCloses` | bridgeComponent/bridge.c:269-294 | A frame `XXXXX` to an open bridge is acknowledged and closes it |
| `SessionDispatch.CloseRefused` | bridgeComponent/bridge.c:276-281 | A longer frame that starts so is refused without an answer and closes nothing |
| `SessionDispatch.UnansweredChangesNothing` | bridgeComponent/bridge.c:283-290 | A reset or a close without result 0 changes no state |
| `SessionDispatch.ClosedIgnores` | bridgeComponent/bridge.c:383-389 | A closed bridge does nothing with any other frame |
| `SessionDispatch.CommandCalls` | bridgeComponent/bridge.c:234-267 | Any other payload to an open bridge calls the processor of its first byte once, with the bytes behind it and their number; then come the processor's responses, and its result is the result |
| `SessionDispatch.CommandRefused` | bridgeComponent/bridge.c:243-256 | Without a usable processor the answer is one NACK |
| `SessionDispatch.OwnPayloadExactly` | bridgeComponent/bridge.c:180-203 | What is dispatched does not depend on what the packet held before if and only if the frame has a payload |
| `SessionDispatch.EmptyFrameCallsStaleCommand` | bridgeComponent/bridge.c:180-203 | An empty frame calls the processor of a byte an earlier frame left, with a length that wrapped |
| `SessionDispatch.OthersCauseNothing` | bridgeComponent/bridge.c:426-465 | Noise, damaged frames and impossible lengths cause no observation, no byte and no change of state |
| `SessionDispatch.NoStart` | bridgeComponent/bridge.c:517-548 | With nothing on the line nothing happens; a line that fails restarts the port, which opens the bridge |
| `SessionSafety.EventSafe` | bridgeComponent/bridge.c:517-548 | One event from any state: what it does is safe, and the state it ends in is the one its observations explain |
| `SessionSafety.RunSafe` | bridgeComponent/bridge.c:234-515 | Over every run: no processor is called while closed, and only the registered one; the bridge closes only after an acknowledged five-byte close frame; apart from a port restart it opens only after a reset frame with the right version, all registered resets successful in order, and the response sent |
| `BridgeObject.Bridge.Collect` | bridgeComponent/bridge.c:40-106 | The loop over `read` moves the cursor by what arrives before the first failure |
| `BridgeObject.Bridge.Read` | bridgeComponent/bridge.c:40-106 | Result, bytes stored, bytes consumed, and the port restart that opens the bridge, for every result of `select`, `read` and `close` |
| `BridgeObject.Bridge.Write` | bridgeComponent/bridge.c:108-139 | All bytes are sent, or a prefix of them and an error |
| `BridgeObject.Bridge.InitResponse` | bridgeComponent/packet.c:33-52 | Header and CRC of the response are those of the frame specification |
| `BridgeObject.Bridge.SendResult` | bridgeComponent/bridge.c:802-838 | The frame of the current index and the first bytes of data, up to the first failing write, is appended to the line |
| `BridgeObject.Bridge.ProcessMsgIdx` | bridgeComponent/bridge.c:141-160 | The index byte and the CRC over it become the packet's; nothing else changes |
| `BridgeObject.Bridge.ProcessLength` | bridgeComponent/bridge.c:162-179 | The length is read in network order, counted into the CRC, and refused above 128 |
| `BridgeObject.Bridge.ProcessBody` | bridgeComponent/bridge.c:180-203 | The payload replaces the cleared data and is counted into the CRC |
| `BridgeObject.Bridge.ProcessPayloadLen` | bridgeComponent/bridge.c:162-203 | Length, then payload, unless the length was refused |
| `BridgeObject.Bridge.ProcessCrc` | bridgeComponent/bridge.c:205-232 | The two CRC bytes are compared with the running CRC in network order |
| `BridgeObject.Bridge.Receive` | bridgeComponent/bridge.c:426-450 | The stages in order, up to the first that fails |
| `BridgeObject.Bridge.ProcessCmd` | bridgeComponent/bridge.c:234-267 | As `CommandCalls` and `CommandRefused` say of the specification: an unregistered command is refused and reported; a registered one is called with the data behind the command byte and the length minus one, wrapping at zero |
| `BridgeObject.Bridge.Close` | bridgeComponent/bridge.c:269-294 | Only a five-byte close frame is acknowledged, and only a sent acknowledgement closes |
| `BridgeObject.Bridge.Reset` | bridgeComponent/bridge.c:296-364 | Version mismatch is refused; otherwise resets in order, response, and open only when all that worked |
| `BridgeObject.Bridge.ExecuteResets` | bridgeComponent/bridge.c:492-515 | The registered resets are called in order up to the first failure |
| `BridgeObject.Bridge.ProcessPayload` | bridgeComponent/bridge.c:366-424 | The dispatch on closed state, reset, close and command, as the lemmas of `SessionDispatch` say of the specification |
| `BridgeObject.Bridge.ProcessMsg` | bridgeComponent/bridge.c:426-465 | Reception, and dispatch only after a correct frame |
| `BridgeObject.Bridge.HandleEvent` | bridgeComponent/bridge.c:517-548 | One byte is read; a start byte begins a message, any other is dropped |
| `BridgeObject.Bridge.RegisterCommandProcessor` | bridgeComponent/bridge.c:840-858 | The first registration of a command wins; a later one is refused and changes nothing |
| `SocketTheorems.StepShape` | bridgeComponent/sockets.c:193-1013 | From slots that are each exactly one of free, connecting, connected (free ones empty, lengths in bounds, `nextId` below 10), a step keeps them so if and only if every client it dropped had its socket closed; a session reset stops at the first refused `close` and leaves that client as it was |
| `SocketTheorems.StepCloses` | bridgeComponent/sockets.c:716-743 | When no `close` in an event fails, every client that the step drops has its socket closed |
| `SocketTheorems.RunShape` | bridgeComponent/sockets.c:193-1013 | Over every run of events in which no `close` fails, every slot stays exactly one of the three |
| `SocketTheorems.RunClosedShape` | bridgeComponent/sockets.c:193-1013 | So it does over every run in which every dropped client had its socket closed |
| `SocketTheorems.CloseKeepsShape` | bridgeComponent/sockets.c:443-480 | A close request keeps the slots so if and only if not (the client has a socket and `close` fails) |
| `SocketTheorems.ConnectKeepsShape` | bridgeComponent/sockets.c:516-649 | A connect keeps them so if and only if not (`close` fails and the slot it drops has a socket: the next one when it is in use or its socket does not start, the one behind it when the answer fails) |
| `SocketTheorems.RefusedCloseLeavesStuckSlot` | bridgeComponent/sockets.c:716-743 | A refused `close` leaves a slot that is none of the three |
| `SocketTheorems.UnansweredConnectDropsTheNextSlot` | bridgeComponent/sockets.c:612-649 | When the answer to a successful connect cannot be sent, the cleanup drops the slot after the new one |
| `SocketTheorems.RefusedConnectDropsTheClient` | bridgeComponent/sockets.c:516-649 | A connect while the next slot is in use is refused, and its cleanup drops the client of that slot |
| `SocketTheorems.ConnectSparesOthers` | bridgeComponent/sockets.c:516-649 | From every state, a connect leaves all clients in use as they are if and only if there is nothing to drop in the next slot, and neither in the one behind it when the connection starts and the answer fails |
| `SocketTheorems.StepBalanced` | bridgeComponent/sockets.c:193-1013 | One step of any kind keeps the byte accounts of every slot |
| `SocketTheorems.RunBalanced` | bridgeComponent/sockets.c:193-1013 | Over every run and interleaving: bytes received since the last connection ended are those read followed by the receive buffer; bytes accepted are those sent followed by the transmit buffer |
| `SocketEffects.ReadTakes` | bridgeComponent/sockets.c:304-355 | A read answers with the first bytes of the receive buffer, as many as were asked for and are there; the rest stays, and no other slot changes |
| `SocketEffects.WriteAppends` | bridgeComponent/sockets.c:357-407 | A write to an open slot with room is accepted whole and changes no other slot; otherwise nothing changes and the code says why |
| `SocketEffects.WriteToAllWrites` | bridgeComponent/sockets.c:651-690 | Exactly the connected slots up to the first without room get the data, once each |
| `SocketEffects.CloseEmpties` | bridgeComponent/sockets.c:443-480 | A close empties exactly its slot, and frees it if and only if the socket could be closed |
| `SocketEffects.ResetEmpties` | bridgeComponent/sockets.c:968-1013 | A reset frees exactly the open slots up to the first whose socket cannot be closed |
| `SocketEffects.AcceptTakesNext` | bridgeComponent/sockets.c:193-302 | A pending connection takes the next slot when that is free, and the turn advances by one; in every other case no slot changes |
| `SocketEffects.ConnectTakesNext` | bridgeComponent/sockets.c:516-649 | A connect that starts and is answered takes the next slot as a pending connection, and the turn advances |
| `SocketEffects.ConnectGivesBack` | bridgeComponent/sockets.c:516-649 | One that does not start leaves every slot as it was, when the new socket can be closed, and says why |
| `SocketEffects.ClientServed` | bridgeComponent/sockets.c:788-870 | For a client with which nothing fails, exactly what arrived is received, and exactly the front that `send` took is sent |
| `SocketEffects.ClientEnds` | bridgeComponent/sockets.c:788-870 | An error, a failing `recv` or a failing `send` ends the client |
| `SocketEffects.ClientOverflows` | bridgeComponent/sockets.c:818-824 | A chunk that does not fit is dropped whole, and nothing is sent |
| `SocketEffects.PassPolls` | bridgeComponent/sockets.c:883-918 | The first half of a pass settles exactly the ripe connections, each by its own socket's error, up to one that fails and cannot be closed |
| `SocketEffects.PassServes` | bridgeComponent/sockets.c:920-961 | The second half serves exactly the connected clients, each on its own and once, up to the first that fails |
| `SocketEffects.QuietPass` | bridgeComponent/sockets.c:872-966 | A pass in which nothing fails, slot by slot: ripe connections are connections; every connection receives what arrived and sends what was taken; all other slots stay |
| `SocketEffects.PassFails` | bridgeComponent/sockets.c:893-901 | A pass whose `select` fails changes nothing |
| `SocketEffects.PassWaits` | bridgeComponent/sockets.c:872-966 | A pass that only waits changes nothing and returns the count of `select` |
| `SocketObjects.Buffer.Append` | bridgeComponent/sockets.c:826-828 | `memcpy` behind the contents appends |
| `SocketObjects.Buffer.Drop` | bridgeComponent/sockets.c:328-343 | `memmove` removes exactly the front |
| `SocketObjects.Client.CloseClient` | bridgeComponent/sockets.c:716-743 | Buffers and flags are cleared even when `close` fails, the descriptor only when it works |
| `SocketObjects.Client.CheckConnection` | bridgeComponent/sockets.c:745-786 | A pending connection becomes connected or is dropped, by the socket's error |
| `SocketObjects.Client.SendSome` | bridgeComponent/sockets.c:832-866 | What `send` took leaves the front of the transmit buffer, as `ClientServed` says of the specification; a failing `send` drops the client |
| `SocketObjects.Client.CheckClient` | bridgeComponent/sockets.c:788-870 | An error drops the client; a received chunk is appended whole, or dropped whole with `LE_OVERFLOW`; then what `send` takes is sent |
| `SocketObjects.Table.Read` | bridgeComponent/sockets.c:304-355 | At most the requested bytes leave the front of the receive buffer, in order, and are the ones logged as taken: see `ReadTakes` |
| `SocketObjects.Table.Write` | bridgeComponent/sockets.c:357-407 | A payload is appended whole, and logged as accepted, or refused |
| `SocketObjects.Table.WriteToAll` | bridgeComponent/sockets.c:651-690 | The connected slots get the payload in order, up to the first that has no room |
| `SocketObjects.Table.Close` | bridgeComponent/sockets.c:443-480 | The slot is dropped, with the result of `close` |
| `SocketObjects.Table.Accept` | bridgeComponent/sockets.c:193-302 | A new connection takes the next slot when that is free |
| `SocketObjects.Table.Connect` | bridgeComponent/sockets.c:516-649 | A new outgoing connection takes the next slot; failures clean up as the code does |
| `SocketObjects.Table.Poll` | bridgeComponent/sockets.c:905-918 | Each pending connection that is ready is checked once, in order, up to the first that fails |
| `SocketObjects.Table.Serve` | bridgeComponent/sockets.c:949-961 | Each connected slot is served once, in order, up to the first that fails |
| `SocketObjects.Table.Runner` | bridgeComponent/sockets.c:872-966 | One pass: pending connections, then traffic; what it received and sent is what the accounts of `RunBalanced` count |
| `SocketObjects.Table.Reset` | bridgeComponent/sockets.c:968-1013 | Every slot is dropped in order, up to the first failing `close` |
| `ReceiveBuffers.RunConserves` | bridgeComponent/airVantage.c:450-543 | Over every run, the responses followed by the buffer are the messages that fitted, in order |
| `ReceiveBuffers.KeptExactly` | bridgeComponent/mailbox.c:410-420 | A message is kept whole if and only if it and what is buffered are together at most 16384 bytes, and otherwise dropped whole |
| `ReceiveBuffers.ReturnsFront` | bridgeComponent/airVantage.c:450-470 | A request returns the first 128 bytes, or all there are, and leaves the rest |
| `ReceiveBuffers.DrainsAll` | bridgeComponent/mailbox.c:212-227 | As many requests as the length divided by 128, rounded up, return the whole buffer in order |
| `ReceiveBuffers.DrainsNoEarlier` | bridgeComponent/mailbox.c:212-227 | Fewer requests leave exactly the rest |
| `ReceiveBuffers.AnnouncedIsLength` | arduino/libraries/swibridge/src/SwiBridge.cpp:73-78 | The two bytes sent in network order decode on the board to the length |
| `ReceiveBuffers.ReceiveBuffer.AppendText` | bridgeComponent/airVantage.c:534-543 | A text is appended whole or dropped; every byte behind the contents stays zero |
| `ReceiveBuffers.ReceiveBuffer.AppendBytes` | bridgeComponent/mailbox.c:410-420 | The same for bytes, with the overflow reported |
| `ReceiveBuffers.ReceiveBuffer.Recv` | bridgeComponent/airVantage.c:450-470 | At most 128 bytes leave the front, the rest moves up, the freed end is zero |
| `ReceiveBuffers.ReceiveBuffer.Available` | bridgeComponent/airVantage.c:426-429 | The response decodes on the board to the number of buffered bytes |
| `Notify.Message` | bridgeComponent/airVantage.c:494-532 | The printed message never exceeds 255 characters |
| `Notify.MessageIs` | bridgeComponent/airVantage.c:494-532 | What is printed is `|key|value|time`, cut to 255 characters |
| `Notify.NotNamed` | arduino/libraries/swibridge/src/SwiBridge.cpp:94-168 | A buffer that does not start with a bar, or in which the name does not stand, gives empty texts, zero and false |
| `Notify.RoundTripBehind` | arduino/libraries/swibridge/src/SwiBridge.cpp:94-168 | Behind other messages in which the key does not stand, value and timestamp are recovered too |
| `Notify.RoundTrip` | arduino/libraries/swibridge/src/SwiBridge.cpp:94-168 | For a non-empty key and texts without `|` that fit, value and timestamp are recovered, also when further messages follow |
| `Notify.IntegerRoundTrip` | arduino/libraries/swibridge/src/SwiBridge.cpp:109-139 | Printed integers and booleans come back |
| `Notify.EmptyKey` | arduino/libraries/swibridge/src/SwiBridge.cpp:94-168 | With an empty key the board reads an empty value and takes the value for the time |
| `Notify.CutInTime` | arduino/libraries/swibridge/src/SwiBridge.cpp:94-168 | A message that holds the bar behind its value yields the value, and of the timestamp exactly what was not cut, also with messages behind it |
| `Notify.CutInValue` | arduino/libraries/swibridge/src/SwiBridge.cpp:94-168 | A message cut in its value: alone it yields the empty value and what is left of the value for the time; with a message behind it, what is left of the value, and the first field of that message for the time |
| `Notify.CutInKey` | arduino/libraries/swibridge/src/SwiBridge.cpp:94-168 | A lone message cut before the bar behind its key yields the empty value and the empty time |
| `Notify.ValueSurvives` | arduino/libraries/swibridge/src/SwiBridge.cpp:156-168 | A lone message yields its value if and only if the bar behind the value was not cut off (or the value is empty) |
| `Notify.TimestampSurvives` | arduino/libraries/swibridge/src/SwiBridge.cpp:94-107 | A lone message yields its timestamp if and only if nothing was cut, or what is read in its place is the same text |
| `Notify.ValueSurvivesFollowed` | arduino/libraries/swibridge/src/SwiBridge.cpp:156-168 | With a message behind it, and its second bar printed, a message yields its value if and only if the whole value was printed |
| `Decimal.ParsePrint` | bridgeComponent/airVantage.c:505-513 | Reading a printed integer gives it back, whatever that is no digit follows |
| `StrReplace.Replaced` | bridgeComponent/utils.c:31-90 | Splicing at the matches found from the left is replacing leftmost, non-overlapping matches, for every string and non-empty pattern |
| `StrReplace.ReplaceLeftmost` | bridgeComponent/utils.c:31-90 | The leftmost match is replaced, and replacing goes on behind it |
| `StrReplace.ReplaceAbsent` | bridgeComponent/utils.c:31-90 | A text without a match stays as it is |
| `StrReplace.LengthExact` | bridgeComponent/utils.c:57-65 | The wrapping length formula gives the length of the result, shorter results included, if and only if that length is a `size_t` |
| `StrReplace.Growths` | bridgeComponent/utils.c:36-50 | The cache has room for every match, and would not without its last growth |
| `StrReplace.FindAll` | bridgeComponent/utils.c:31-55 | The cache holds the positions of all matches, or the request that grows it was refused |
| `StrReplace.CopyAll` | bridgeComponent/utils.c:73-89 | The copy pass fills the block exactly: the result and its terminator |
| `StrReplace.StrReplace` | bridgeComponent/utils.c:12-97 | Null if and only if a request for memory is refused, otherwise exactly the replaced text and its terminator |
| `JsonReader.SkipWs` | bridgeComponent/json.c:183-214 | The cursor moves by what the length loses, stops at neither blank nor slash, and cannot use up a text that ends with a brace |
| `JsonReader.ReadComment` | bridgeComponent/json.c:739-787 | A comment that ends leaves something to read, with cursor and length in step |
| `JsonReader.ReadChars` | bridgeComponent/json.c:551-601 | The characters of a string up to its quote, always inside the text; termination by the remaining length |
| `JsonReader.ReadItems` | bridgeComponent/json.c:252-295 | The loop ends at its bracket with a cursor in step, or early with less remaining |
| `JsonReader.ReadArray` | bridgeComponent/json.c:216-311 | A successful read has less remaining and either stored a cursor in step with it or left it at the bracket |
| `JsonReader.ReadMembers` | bridgeComponent/json.c:350-433 | The same for the members of an object, also when a child left its cursor behind |
| `JsonReader.ReadObject` | bridgeComponent/json.c:313-466 | The same for objects, nested to any depth |
| `JsonReader.ReadData` | bridgeComponent/json.c:789-855 | Every dereference is inside the text, offset plus remaining length never exceeds it, the remaining length falls and never passes zero, and the mutual recursion ends |
| `JsonReader.Trim` | bridgeComponent/json.c:1944-1957 | The backward skip removes exactly the trailing blanks |
| `JsonInput.StringBuffer.ReadChar` | bridgeComponent/json.c:148-181 | Written bytes plus `allocLen` stay the block's length, 32 times a power of two; doubling keeps the bytes, and there is always room for the next |
| `JsonInput.Reader.ReadComment` | bridgeComponent/json.c:739-787 | The loops compute the specified comment skip |
| `JsonInput.Reader.SkipWhitespace` | bridgeComponent/json.c:183-214 | The loop computes the specified skip, and the shared length follows |
| `JsonInput.Reader.ReadLiteral` | bridgeComponent/json.c:615-737 | Letter by letter, as specified |
| `JsonInput.Reader.ReadNumber` | bridgeComponent/json.c:468-515 | The loop with its two flags computes the specified number |
| `JsonInput.Reader.ReadString` | bridgeComponent/json.c:517-613 | The loop with the growing buffer computes the specified string, its terminator included, as long as 32 bits hold the doubled length of what it collects |
| `JsonInput.Reader.ReadArray` | bridgeComponent/json.c:216-311 | The loop that queues items computes the specified array, early returns included |
| `JsonInput.Reader.ReadObject` | bridgeComponent/json.c:313-466 | The loop over keys and values computes the specified object, early returns and released keys included |
| `JsonInput.Reader.ReadData` | bridgeComponent/json.c:789-855 | Result, cursor, remaining length and blocks are those of the specification |
| `JsonInput.Read` | bridgeComponent/json.c:1936-1978 | The whole read, with its backward trimming, is the specified one |
| `JsonInput.DoublingExact` | bridgeComponent/json.c:148-181 | Doubling on 32 bits is exact if and only if the length is below 2^31 |
| `JsonBlocks.ReadDataBalanced` | bridgeComponent/json.c:216-613 | Every successful read accounts for each block it allocated: in the tree, released, or lost |
| `JsonBlocks.ReadDataKeeps` | bridgeComponent/json.c:350-466 | A read that stored its cursor, or used the text up, lost no block |
| `JsonBlocks.DestroyedIds` | bridgeComponent/json.c:1358-1451 | Destroying a tree releases exactly its blocks |
| `JsonBlocks.ReadThenDestroy` | bridgeComponent/json.c:2009-2057 | Blocks allocated by a read are those destroying its tree releases, the temporary keys already released, and those lost; a complete read loses none |
| `JsonBlocks.EachOnce` | bridgeComponent/json.c:388-412 | After a complete read and a destroy every block allocated has been released exactly once |
| `JsonBlocks.MissingColon` | bridgeComponent/json.c:366-370 | An object that lacks a colon is accepted as empty and its key's two blocks are lost |
| `JsonOrder.DestroyedInOrder` | bridgeComponent/json.c:1358-1451 | Destroying any tree releases, at every node of it, the block of the node behind all blocks below it, the link of an item or member behind all blocks of its value, the key of a member before them, and items and members in order |
| `JsonOrder.ReadDestroysInOrder` | bridgeComponent/json.c:2009-2057 | For every tree that was read, each block stands once, and the root's behind all others |
| `JsonLoss.LosesExactly` | bridgeComponent/json.c:313-466 | From every cursor and heap, a read succeeds and loses a block if and only if, on its way, a member has no colon behind its key, or nothing behind the colon: a condition on the text and the cursor alone |
| `JsonLoss.ReadLoses` | bridgeComponent/json.c:1936-1978 | A whole read succeeds and loses a block if and only if the trimmed text ends with a brace and meets that condition |
| `JsonDestroy.Destroy` | bridgeComponent/json.c:1373-1451 | The loops pop every list until it is empty and release the blocks of `Destroyed`, whose order `DestroyedInOrder` states |
| `JsonLayout.SkipGap` | bridgeComponent/json.c:183-214 | Any blanks, newlines and complete line comments are skipped as a whole |
| `JsonLayout.CharsAt` | bridgeComponent/json.c:551-601 | Plain characters, the five escapes and the escaped slash are decoded, for strings of any length |
| `JsonLayout.ReadTree` | bridgeComponent/json.c:789-855 | Any well-formed value, with gaps and trailing commas anywhere, is read as what it denotes and the cursor ends behind it |
| `JsonLayout.ReadElements` | bridgeComponent/json.c:252-295 | The items of an array, up to its bracket, with or without a trailing comma |
| `JsonLayout.ReadFields` | bridgeComponent/json.c:350-433 | The members of an object, up to its brace, with or without a trailing comma |
| `JsonTexts.ReadAlone` | bridgeComponent/json.c:1936-1978 | An object text with blanks behind it is read completely, as what it denotes, and no block is lost |
| `JsonTexts.ReadFollowed` | bridgeComponent/json.c:1936-1978 | With more text behind it, exactly what follows the object and its gap is left, and no block is lost |
| `JsonTexts.NoColonLosesKey` | bridgeComponent/json.c:350-372 | For all gaps, every key and everything behind it that is no colon, the text is accepted as an empty object and the two blocks of its key are lost |
| `JsonSound.AcceptedExactly` | bridgeComponent/json.c:1936-1978 | A read succeeds, uses the text up and yields an object if and only if the text is one of the object texts, with blanks behind it |
| `JsonSound.StoredSound` | bridgeComponent/json.c:1936-1978 | A read that stored its cursor has read a gap, a well-formed value and the gap behind it, and its tree is what that value denotes |
| `JsonSound.UsedUpSound` | bridgeComponent/json.c:313-466 | The tree of a used-up object is what its text denotes |
| `JsonRefusal.IncompleteExactly` | bridgeComponent/json.c:1944-1957 | A text is refused with underflow if and only if its last character that is no blank is no closing brace |
| `JsonRefusal.BlankIsIncomplete` | bridgeComponent/json.c:1944-1957 | A blank or empty text is refused with underflow |
| `JsonRefusal.RootKind` | bridgeComponent/json.c:789-855 | A successful read yields what the first character behind the gap announces: an object behind a brace |
| `JsonPrefix.NoPartAccepted` | bridgeComponent/json.c:1936-1978 | No proper beginning of a text that is used up by its object is accepted |
| `JsonPrefix.NoPartOfMessage` | bridgeComponent/mailbox.c:900-910 | No proper beginning of a written message is accepted, and one that does not end with a brace is refused with underflow |
| `JsonPrefix.UnclosedArrayAccepted` | bridgeComponent/json.c:252-295 | For every object text, an opening bracket in front of it is accepted as an array of that object |
| `JsonPrefix.UsedUpExactly` | bridgeComponent/json.c:1936-1978 | A text that is used up is an object text if and only if it starts with a brace |
| `JsonTexts.LayoutIndependent` | bridgeComponent/json.c:1944-1957 | Blanks, newlines, line comments and trailing commas between the tokens do not change the tree |
| `JsonEscape.PassesAreMap` | bridgeComponent/json.c:1000-1058 | The six whole-string replacements together are one per-character escape map, for every string |
| `JsonEscape.Unescapes` | bridgeComponent/json.c:553-601 | The reader's loop undoes them for every string without a quote or a backslash |
| `JsonEscape.YieldsNoQuote` | bridgeComponent/json.c:587-601 | The reader's loop never yields a quote or a backslash |
| `JsonEscape.ComesBack` | bridgeComponent/json.c:1000-1058 | A string comes back from the writer's escaping if and only if it has neither a quote nor a backslash |
| `JsonWriter.OpsText` | bridgeComponent/json.c:857-1356 | The buffer operations of the writer copy the text of the value, its strings and keys up to their first NUL |
| `JsonWriter.CStringIs` | bridgeComponent/json.c:1000-1001 | What `strlen` and `strcpy` see of a string is its longest beginning without NUL |
| `JsonWriter.StringWritten` | bridgeComponent/json.c:981-1095 | Every string without NUL, quotes and backslashes included, is written between quotes with each character escaped; a NUL and what is behind it are not written |
| `JsonWriter.EscapeIs` | bridgeComponent/json.c:1001-1058 | The escape map, character by character, in any text |
| `JsonWriter.KeyWritten` | bridgeComponent/json.c:1186-1294 | A key is written as it stands, up to a NUL, between quotes and with a colon |
| `JsonRoundTrip.CanonMatches` | bridgeComponent/json.c:857-1356 | The written text of a supported value is one of the well-formed texts, and denotes the value with missing items as null |
| `JsonRoundTrip.RoundTrip` | bridgeComponent/json.c:1936-2007 | Reading the text written for a supported object gives an equal tree, leaves length 0 and loses no block |
| `JsonRoundTrip.RoundTripFollowed` | bridgeComponent/json.c:1936-2007 | Reading `write(v) ++ write(w)` gives `v`, leaves exactly the length of `write(w)` and loses no block |
| `PowersOfTwo.GetNextPowerOfTwo` | bridgeComponent/json.c:63-70 | The least power of two not below the argument, for arguments up to 2^31 |
| `PowersOfTwo.NeverEnds` | bridgeComponent/json.c:63-70 | The loop never ends if and only if the argument is above 2^31 |
| `JsonBuffer.FitsIsExact` | bridgeComponent/json.c:72-146 | From every state, a run of buffer operations comes out whole, with every byte inside the block and covered by the bytes believed free, if and only if its chunks fit: a condition on their sizes, the position, the believed and the real size; it has then appended its text and is where the sizes say |
| `JsonBuffer.GrowthExactly` | bridgeComponent/json.c:81-99 | One growth from any state: when it covers the chunk, and when it believes in no more bytes than the block has |
| `JsonBuffer.GrowthExact` | bridgeComponent/json.c:81-99 | Growing keeps the count of free bytes exact if and only if the chunk fits twice the present size, and then doubles the size |
| `JsonBuffer.RoomIsExact` | bridgeComponent/json.c:72-146 | A run never miscounts, never aborts and always ends if and only if every chunk finds room at most one doubling away, a condition on positions alone |
| `JsonBuffer.RunWithRoom` | bridgeComponent/json.c:72-146 | Such a run appends the text; the size stays 64 times a power of two; bytes recopied by growing stay below it |
| `JsonBuffer.WriteIsLinear` | bridgeComponent/json.c:1980-2007 | A value whose operations fit is written completely; block and believed size stay below twice its length (or at 64), and growing recopied at most four times its length |
| `JsonBuffer.FitsAsIs` | bridgeComponent/json.c:72-146 | Text that fits what is left, believed and real, fits without growing |
| `JsonBuffer.FirstString` | bridgeComponent/json.c:81-99 | Exactly which strings can be the first thing written: up to 63 characters, or as many as 63 and half of the next power of two cover |
| `JsonBuffer.UncountedString` | bridgeComponent/json.c:81-99 | A first string of 150 characters is written although the count of free bytes is wrong afterwards |
| `JsonBuffer.LongString` | bridgeComponent/json.c:81-99 | A first string of 200 characters aborts the writer: 63 + 128 = 191 |
| `JsonBuffer.CommaAborts` | bridgeComponent/json.c:1273-1277 | The comma of an object is not asked room for: behind a first member that fills the 64 bytes it is stored one byte past the block, and then the writer aborts |
| `JsonBuffer.LeavesBlock` | bridgeComponent/json.c:81-99 | For all plain strings of 178, 20 and 100 characters, writing their array passes every assertion and stores characters past the block |
| `JsonOutput.Output.CheckOutputBufferSize` | bridgeComponent/json.c:72-104 | The written bytes survive growth; the size is the next power of two, and half of it is added to the bytes believed free |
| `JsonOutput.Output.WriteNext` | bridgeComponent/json.c:136-146 | The chunk is appended and the counts move by it |
| `JsonOutput.EscapeAll` | bridgeComponent/json.c:1000-1058 | The six calls of `strreplace`, one after the other, compute the specified passes for every string |
| `JsonOutput.Output.WriteString` | bridgeComponent/json.c:981-1095 | Quote, escaped text up to the first NUL, quote |
| `JsonOutput.Output.WriteArray` | bridgeComponent/json.c:1122-1184 | The loop over the items writes the specified text with the specified checks |
| `JsonOutput.Output.WriteObject` | bridgeComponent/json.c:1186-1294 | The same for members, with the comma that is not checked |
| `JsonOutput.Output.WriteData` | bridgeComponent/json.c:1296-1356 | For every value whose operations fit, the buffer gains exactly its text and ends at the predicted length, believed free bytes and size |
| `JsonOutput.JsonWrite` | bridgeComponent/json.c:1980-2007 | For every value whose operations fit, the block holds its text |

## Left out

- `\u` escapes and unicode output (`json.c:566-586`, `942-979`): the code point overwrites the string pointer; the reader model stops with an error of its own there.
- Floats: a literal with a point is kept as its text, because its value is that of library code; the round trip holds for these texts; `pushFloat` and `parseFloat` are left out likewise.
- A slash as the last byte before the trailing blanks (`json.c:1944-1945`): the backward skip would look for a comment in the wrong direction.
- A trailing comment behind an object that ends the text is in the reader model, not in the texts it is proved to accept.
- JsonInput.Read: ends with the error of a failed read; the cleanup behind one is not modelled. Where an object fails with a key in hand, that key is destroyed; where it fails without one, before its first key or behind a member, the key's pointer is null and `json_destroy` asserts that it is not (`json.c:456-463`, `2013`). The debug line that looks at the byte before an empty text is not modelled either.
- JsonInput.StringBuffer.ReadChar: allocation succeeds; refused memory in the reader and in the writer's growth is not modelled.
- JsonInput.Reader.ReadString: for texts of less than 2^32 bytes from no place of which 2^31 characters are collected into one string (all texts below 2^31 bytes are such, `ShortCollectable`); beyond that the doubled length wraps to zero (`DoublingExact`). ReadArray, ReadObject, ReadData and Read share this.
- JsonOutput.JsonWrite: for values whose operations fit (the exact condition of `FitsIsExact`), written into an empty length; `mailbox_send` starts from a length that is not zero. What is stored past the block by other values is not modelled, only that it is.
- JsonDestroy.Destroy: pops lists that are values; the pointers in the list links and the nulled item pointers are not modelled.
- JsonRoundTrip.RoundTrip: for objects whose strings and keys have no quote, backslash or NUL, whose numbers are integers in the range of `int` or literals with a point, and whose arrays hold no null pointer.
- StrReplace.StrReplace: requires a non-empty pattern and a result shorter than the address space, which the code takes for granted; the size of the cache in bytes is not checked for wrapping.
- What follows a header with a length above 128: the code ends the frame there, and so does the model; the bytes behind it are read as noise or frames.
- BridgeObject.Bridge.SendResult: at most 128 bytes, the size of the packet's data; `sockets_read` can ask for up to 255 (`sockets.c:315-349`), and the code then goes on behind the data. A `write` that returns 0 forever is not modelled.
- BridgeObject.Bridge.InitResponse: at most 128 bytes, likewise.
- SocketObjects.Table.Read: what a response of more than 128 bytes overwrites behind the packet's data.
- SocketObjects.Table.Connect: name resolution and the socket options are one result each.
- Bridge runners, start and stop of the bridge, signals, serial port setup, `select` timeouts of the port: plumbing around the modelled handlers.
- The listening socket of `sockets.c`, `tcpClient.c`, `tcpServer.c`, `console.c`, `fileIO.c`, `processes.c`, `popen2`: socket and process plumbing whose buffers work like the modelled ones.
- `copyObject`, `addObject`, the get, put and delete datastore, and pipelined mailbox messages (`mailbox.c:826`): stored values and keys alias memory that is freed or overwritten.
- Status codes come from legato.h, which is not part of this model: the code's names are given distinct values.
- The host is little-endian, as the byte swaps of the packet need.
- The Arduino sketch, Legato and dataRouter calls, logging and `dumpBuffer`.

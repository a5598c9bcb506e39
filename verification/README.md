# SmartGateway: a model and its proofs

SmartGateway is an IoT gateway. A server sends commands as JSON lines over one TCP link; the gateway queues them per
device and hands them to Bluetooth (serial frames) or WiFi (JSON lines) nodes; data, acknowledgements and refusals
come back through a bounded queue. This project models that path in Dafny and proves what it keeps.

How the model is laid out:

- **Serial codec.** `Crc16` (loops over bytes and bits, and the algebra of the register), `CrcDivision` (the register as
  long division), `FrameFormat` (what a frame is), `FrameParser` (the resynchronising parser as a class over its
  buffer), `FrameStream` (the parser against a declarative reading of the stream), `FrameBuilder`, `FrameDecoder`,
  `FrameGrammar` (exactly which payloads are accepted), `FrameRoundTrip`.
- **JSON codec.** `JsonScan` and `JsonObject` specify the hand-written scanner on suffixes of the line; `JsonParser`
  and `JsonMessage` are its cursor loops and the builders, proved against that; `JsonRoundTrip` and `JsonRelay` say
  exactly which messages survive, `JsonLegacy` and `JsonRequired` what older lines mean and what each decoder demands.
- **Relays.** `ServerDispatch` (the server's substring search), `GatewayRelay` (one message through the gateway),
  `LineParser` (in-place line splitting), `RelayedLines` (every pushed message is one line, and what the server sees of
  a whole connection).
- **Command protocol.** `DeviceManager` (the registry class, its rings and arrays, proved against a table),
  `CommandRouting` (a line from the server, and a connection's identity), `GatewayProtocol` (all interleavings of
  routing, binding, takeover, dequeue, write, disconnect, descriptor and thread reuse; each call under the registry's
  mutex is one step) and `GatewayProgress` (what it can always go on to do).
- **Delivery.** `MessageQueue` and `QueueMonitor` (ring and monitor with two condition variables), `ServerLink`
  (pending message and reconnects), `CommandManager` and `CommandRuns` (retries and replies over whole runs),
  `CommandCycle` (a command and its answer through all codecs), `NodeStore`, `GatewayLoop` (start and shutdown).

Bytes are `char`; a C string is what stands before the first NUL. `Octets` turns characters into the bytes the checksum
reads. Outputs that the source passes to callbacks are returned as sequences.

## Where the code does something else than it says

- `common/message_json.c:46-52` says fields from the frame layer hold no quotes or backslashes, but `common/frame.c:90-117`
  lets them through: `GatewayRelay.QuotedFieldIsChanged`. A frame can also be too long as JSON and is then dropped:
  `LongAckIsDropped`. `SerialRelayIff` is the exact condition for a serial message to reach the server as itself.
- `server/main.c:107-175` decides what a line is by searching it for a type member, so a DATA message with a field
  `type=ACK` is dropped: `GatewayRelay.MisroutedDataIsPushed`, exact conditions in `ServerDispatch.DataReachesStoreIff` and
  `PlainDataReachesStoreIff`.
- A routing refusal that is written only in part leaves the connection open, and the next upstream message is merged into
  it and lost though it counts as sent: `RelayedLines.TornNackSwallowsMessage`, exact condition over all runs in
  `ServerLink.RunParsesWholeLinesIff`.
- `device_manager_try_dequeue_command` takes a descriptor but compares only the thread (`gateway/device_manager.c:604-607`).
  `GatewayProtocol.DequeuerOwns` shows that in the gateway's own discipline this is still exact.
- The server asks for at most 16 resends per check, but the table holds 64 and a resend that is not reported uses up a
  retry, so a command can time out without ever being sent again: `CommandRuns.CrowdTimesOut`, exact conditions in
  `CommandManager.ReportedIff` and `CommandRuns.ReportsCounted`.
- The node store calls itself LRU, but its clock counts seconds and equal times break by slot:
  `NodeStore.TiesForgetTheWrongNode`, exact conditions in `EvictsLeastRecentIff` for one eviction and in
  `AlwaysMostRecentIff` for whole histories.

## Model

| member | source | states |
|---|---|---|
| Crc16.Crc16CcittFalse | common/crc16.c:3-59 | The byte and bit loops leave in the register the checksum that the algebraic lemmas below speak about, for every input |
| CrcDivision.ChecksumIsRemainder | common/crc16.c:3-59 | The checksum is the remainder of long division by x^16+x^12+x^5+1 of the message, its first sixteen bits complemented and sixteen zeros appended; short messages included |
| CrcDivision.CheckValue | common/crc16.c:3-59 | The checksum of 123456789 is 0x29B1, the published check value of CRC-16/CCITT-FALSE |
| CrcDivision.OctetIsByte | common/frame.c:267-273 | A character below 256 enters the checksum as that byte |
| Crc16.RegisterIsSerial | common/crc16.c:24-57 | Processing a byte at a time equals clocking the message through the register one bit at a time |
| Crc16.SerialIsLinear | common/crc16.c:24-57 | The register is XOR-linear: the difference of two checksums is the checksum of the difference |
| Crc16.ShiftIsLinear | common/crc16.c:37-53 | One shift distributes over XOR |
| Crc16.ShiftParity | common/crc16.c:37-53 | One shift keeps the parity of the register's bits |
| Crc16.BurstSurvives | common/crc16.c:24-57 | A difference confined to 16 consecutive bits never cancels, however long the rest of the message |
| Crc16.DetectsBurst | common/crc16.c:24-57 | Different messages of equal length that differ only within 16 consecutive bits have different checksums |
| Crc16.DetectsTwoBytes | common/crc16.c:24-57 | Different messages of equal length that differ only in two neighbouring bytes have different checksums |
| Crc16.DetectsOddFlips | common/crc16.c:24-57 | Messages of equal length that differ in an odd number of bits have different checksums |
| FrameFormat.AcceptedIff | common/frame_parser.c:82-206 | A byte string is accepted as a frame if and only if it is @ payload * four hex digits CR LF, NUL-free, under 256 bytes, payload not empty, digits equal to the payload's checksum |
| FrameFormat.Hex4RoundTrip | common/frame_parser.c:24-72 | The checksum printed with %04X parses back to itself |
| FrameFormat.Hex4IsCapital | common/frame.c:275-287 | The checksum is printed in four digits with capital letters |
| FrameParser.FrameParser.constructor | common/frame_parser.c:208-219 | A new parser is hunting and has counted nothing |
| FrameParser.FrameParser.Reset | common/frame_parser.c:221-235 | Reset goes back to hunting and keeps the statistics |
| FrameParser.FrameParser.ValidateFrame | common/frame_parser.c:82-206 | The checks on the collected buffer, in the source's order, reach the verdict of the declarative frame format |
| FrameParser.FrameParser.FeedByte | common/frame_parser.c:261-384 | One byte changes buffer, length, state and statistics as the resynchronising state machine does, @ tested before overflow |
| FrameParser.FrameParser.Feed | common/frame_parser.c:237-388 | Feeding a block is the run of the state machine over it; the result counts the callbacks |
| FrameParser.ParseCrc4 | common/frame_parser.c:47-72 | Four hex digits of either case give their value, anything else is refused |
| FrameStream.ParserDeliversStream | common/frame_parser.c:237-388 | From any parser state the callbacks are, in order, exactly the frames of the declarative reading of collected bytes followed by the stream |
| FrameStream.DeliveredIffContained | common/frame_parser.c:237-388 | A frame is delivered if and only if the stream contains it from an @ to the next @ or LF, that being a LF, and it is intact |
| FrameStream.ChunksCompose | common/frame_parser.c:237-388 | Cutting the stream in two changes neither callbacks nor statistics nor state |
| FrameStream.AnyChunking | common/frame_parser.c:237-388 | Nor does any other way of cutting it |
| FrameStream.EveryAtAccounted | common/frame_parser.c:261-384 | Over any feed the number of @ bytes is what valid, CRC, format and overflow counters gained, plus the frame being collected; callbacks equal valid_frames |
| FrameStream.LineCounted | common/frame_parser.c:261-384 | An @, undelimited bytes and a line feed, from hunting: up to 253 bytes are judged and give valid, CRC or format; from 254 on they give one overflow, and every byte after the 256th is discarded |
| FrameStream.HuntingDiscards | common/frame_parser.c:268-291 | While hunting every other byte is discarded and counted as such |
| FrameStream.RestartCounted | common/frame_parser.c:297-309 | An @ inside a frame is one format error and starts the next frame, however much was collected |
| FrameStream.IntactFrameDelivered | common/frame_parser.c:237-388 | A sealed frame gives exactly one callback with its own payload, from any parser state and in any chunks |
| FrameStream.DamagedFrameCounted | common/frame_parser.c:154-182 | A frame whose payload suffered a burst of 16 bits or an odd number of flips is never delivered and adds exactly one crc_errors |
| FrameBuilder.NodeIdIsValid | common/frame.c:56-82 | An id is usable if and only if it is not empty and holds none of the reserved characters |
| FrameBuilder.FieldTextIsValid | common/frame.c:90-117 | The same for keys and values with their own reserved characters |
| FrameBuilder.BuildKvFrame | common/frame.c:138-306 | A frame is built if and only if ids and fields are valid and payload and frame fit, and then it is the sealed payload text; NodeIdError exactly for a bad id, ParamError exactly for too many fields or an invalid field that is reached before the text is too long, TooLong otherwise |
| FrameBuilder.BuildNack | common/frame.c:444-564 | The same for NACK frames |
| FrameBuilder.PrintFrame | common/frame.c:267-305 | Sealing fails exactly when the buffer cannot hold the frame and its terminator |
| FrameDecoder.Strtok | common/frame_parser.c:480-495 | One strtok_r call returns the next maximal comma-free run and its end, or none |
| FrameDecoder.CollectTokens | common/frame_parser.c:486-504 | The token loop collects the first tokens and tells whether there are more |
| FrameDecoder.ParseKvPayload | common/frame_parser.c:451-584 | The decoder accepts exactly the payloads of the token specification and returns that message |
| FrameDecoder.FrameDecodeNack | common/frame_parser.c:722-809 | The same for NACK payloads |
| FrameDecoder.FrameGetMessageType | common/frame_parser.c:811-865 | The fourth token decides the type |
| FrameGrammar.TokensIff | common/frame_parser.c:480-504 | strtok_r finds exactly the non-empty comma-free pieces the text consists of, with any number of extra commas |
| FrameGrammar.NumberIff | common/frame_parser.c:393-430 | A sequence text reads as n exactly when it is blanks, an optional sign and digits with that value, within 32 bits |
| FrameGrammar.KvAcceptedIff | common/frame_parser.c:451-584 | A payload is accepted as a message if and only if, up to extra commas, it is version 1, the id under 32 characters, six characters that read as the sequence, the type and at most sixteen key=value pieces split at the first equals sign |
| FrameGrammar.NackAcceptedIff | common/frame_parser.c:722-809 | The same for NACK: exactly five pieces, the last ERR= and a text of one to 31 characters |
| FrameGrammar.TypeIff | common/frame_parser.c:811-865 | The type is what the fourth piece says |
| FrameRoundTrip.KvDecodes | common/frame_parser.c:451-584 | The decoder gives back id, sequence modulo one million and fields of a built payload if and only if the id is shorter than 32 |
| FrameRoundTrip.NackDecodes | common/frame_parser.c:722-809 | The same for NACK payloads, if and only if id and error text are shorter than 32 |
| FrameRoundTrip.KvFrameRoundTrip | common/frame.c:138-306 | A built DATA, CMD or ACK frame fed in any chunks to a parser in any state gives one callback of its type that decodes to the inputs, sequence modulo one million |
| FrameRoundTrip.NackFrameRoundTrip | common/frame.c:444-564 | The same for NACK frames, for every id and error under 32 characters |
| JsonScan.JsonSkipWhitespace | common/message_json.c:342-354 | The cursor stops at the first character that is not whitespace |
| JsonScan.JsonScanString | common/message_json.c:524-543 | The closing-quote loop stops where the specification says, escapes skipped in pairs |
| JsonScan.JsonSkipNumber | common/message_json.c:692-734 | A field's number is skipped or refused digit group by digit group as specified |
| JsonScan.ScanQuotedIff | common/message_json.c:524-543 | Scanning a quoted text gives the text back if and only if it has no unescaped quote and no dangling backslash |
| JsonRoundTrip.FieldsRead | common/message_json.c:402-436 | Reading printed fields adds exactly these fields, in order, behind those already there, while there is room for them |
| JsonParser.JsonParseFields | common/message_json.c:575-780 | The nested fields object is read member by member as specified, trailing comma included |
| JsonParser.JsonUint32 | common/message_json.c:902-939 | Digits are accumulated with an exact uint32_t bound; fraction and exponent are skipped |
| JsonParser.JsonParseX10 | common/message_json.c:1312-1404 | The scaled number is read with the guard before each digit and the first decimal only |
| JsonParser.JsonParseObject | common/message_json.c:456-987 | The member loop returns the object of the specification and the bytes consumed, or fails exactly when it fails |
| JsonMessage.BuildKv | common/message_json.c:10-191 | Building succeeds if and only if the closed-form text is shorter than out_size, and yields that text |
| JsonMessage.BuildCommand | common/message_json.c:240-332 | The same for commands |
| JsonMessage.BuildNackLine | common/message_json.c:196-236 | The same for NACK lines |
| JsonMessage.NackAlwaysFits | common/message_json.c:196-236 | A NACK line is never longer than 116 bytes, so the gateway's 256 byte buffer always suffices |
| JsonMessage.MessageJsonDecodeKv | common/message_json.c:1161-1227 | The ACK decoder accepts exactly objects with node, sequence and the wanted type |
| JsonMessage.MessageJsonDecodeCommand | common/message_json.c:1056-1138 | The command decoder also demands a sender, and falls back to the legacy led member |
| JsonMessage.MessageJsonDecodeNack | common/message_json.c:1244-1296 | The NACK decoder demands an error text |
| JsonMessage.MessageJsonDecodeData | common/message_json.c:1461-1998 | The DATA decoder, with its own member loop and legacy temperature and humidity members |
| JsonLegacy.LegacyDataDecodes | common/message_json.c:1414-1416 | A line of the older format decodes to T and H, in the order the measurements stand in, each ten times the decimal number with further digits cut off, sign kept |
| JsonLegacy.DocumentedLine | common/message_json.c:1414-1416 | 25.3 degrees and 60.1 percent are T=253 and H=601, in either order |
| JsonRequired.RequiredMembersIff | common/message_json.c:1056-1296 | With any members left out, each decoder accepts exactly the objects that have the members it demands and its own type, and reads those |
| JsonLegacy.HugeMeasurementRefused | common/message_json.c:1340-1352 | A measurement whose integer part is 2147483640 or more makes the DATA decoder refuse the line |
| JsonRequired.UnknownIgnored | common/message_json.c:456-987 | A member nobody asks for, text or number, changes nothing |
| JsonRequired.BadSequenceRefused | common/message_json.c:902-948 | A sequence beyond 32 bits or with a minus sign makes every decoder refuse the line |
| JsonRequired.FieldsBeatLed | common/message_json.c:1121-1135 | Beside a fields object the led member does not count, in whatever order they stand |
| JsonRequired.LedCommandDecodes | common/message_json.c:1056-1138 | A command of the older format decodes to the single field LED with the number, sign kept |
| JsonRelay.DataRoundTripIff | common/message_json.c:1461-1998 | decode(build(m)) = m with exactly the object consumed, whatever NUL-free text follows, if and only if the texts are balanced, the fields not empty and the sequence a uint32 |
| JsonRelay.AckRoundTripIff | common/message_json.c:1161-1227 | The same for ACK |
| JsonRelay.CommandRoundTripIff | common/message_json.c:1056-1138 | The same for CMD |
| JsonRelay.NackRoundTripIff | common/message_json.c:1244-1296 | The same for NACK |
| JsonRelay.ParsedIsPrintable | common/message_json.c:456-987 | Whatever the scanner accepts consists of texts that can be printed again without escaping |
| ServerDispatch.LineHas | server/main.c:107-129 | The search finds a pattern exactly when it occurs |
| ServerDispatch.OnLine | server/main.c:141-297 | A line is an ACK, a NACK or DATA by what it contains, in that order, and only if that decoder accepts it |
| ServerDispatch.OccursIffInside | server/main.c:107-129 | For a text of quote-separated pieces, a quoted pattern occurs if and only if its pieces stand next to each other |
| ServerDispatch.KvMentionsIff | server/main.c:141-175 | A printed message without quotes in its texts contains a type member if and only if it has that type or a field says so |
| ServerDispatch.DataReachesStoreIff | server/main.c:141-297 | A DATA message reaches the store if and only if its line contains neither the ACK nor the NACK type member |
| ServerDispatch.PlainDataReachesStoreIff | server/main.c:141-297 | Without quotes in its texts: if and only if no field is called type with value ACK or NACK |
| GatewayRelay.MisroutedDataIsPushed | server/main.c:141-297 | A DATA frame with the field type=ACK is decoded and pushed by the gateway, and the server ignores its line |
| ServerDispatch.AckReachesManager | server/main.c:141-175 | Every ACK that survives printing reaches the command manager |
| ServerDispatch.NackReachesManagerIff | server/main.c:141-220 | A NACK reaches it if and only if its line does not contain the ACK type member |
| ServerDispatch.PlainNackReachesManager | server/main.c:141-220 | A NACK without quotes in its texts always does |
| GatewayRelay.OnWifiLine | gateway/gateway_app.c:1088-1342 | A WiFi line is decoded by its type and, identity accepted, exactly one re-encoded line is pushed if it fits |
| GatewayRelay.OnFrame | gateway/gateway_app.c:556-776 | The same for a serial frame |
| GatewayRelay.EncodeForSerial | gateway/bluetooth_worker.c:91-116 | A command becomes its sealed frame or cmd_encode_failed, exactly when it cannot be built |
| GatewayRelay.ServerAgreesIff | gateway/gateway_app.c:1123-1341 | The server understands a printed message as the gateway did if and only if the substring search routes it |
| GatewayRelay.WifiRelayIsStable | gateway/gateway_app.c:1123-1341 | For every NUL-free WiFi line that decodes, however it is written, decoding the re-encoded line gives the same message |
| GatewayRelay.WifiRelayIff | gateway/gateway_app.c:1123-1341 | What is pushed for a WiFi line is heard by the server as the gateway meant it if and only if the identity is accepted, the JSON fits 256 bytes and the search routes it |
| GatewayRelay.SerialRelayIff | gateway/gateway_app.c:556-776 | What is pushed for a serial frame is heard as meant if and only if the identity is accepted, the JSON fits 256 bytes, the texts are balanced and the search routes it |
| GatewayRelay.QuotedFieldIsChanged | common/frame.c:90-117 | A frame whose field value is a quote is built, decoded and pushed, and the server hears something else |
| GatewayRelay.LongAckIsDropped | gateway/gateway_app.c:656-717 | An acknowledgement with sixteen fields of six by six characters fits a frame but not the JSON buffer: nothing is pushed |
| GatewayRelay.SuchFramesExist | common/frame.c:138-306 | The messages of the two failing cases are ones a node can frame |
| GatewayRelay.CommandTransit | gateway/bluetooth_worker.c:91-116 | Every command line the gateway decodes is refused by the serial encoder or recovered by the node: sender, fields in order, sequence modulo one million |
| GatewayRelay.CommandEndToEnd | server/main.c:533-595 | A command of the server is put on the serial line if and only if its JSON fits 256 bytes and its frame can be built, and then the node recovers it |
| LineParser.LineParserFeed | common/line_parser.c:17-100 | The memmove loop delivers exactly the lines of the buffer and leaves the rest in front |
| LineParser.LineReceiver.OnRead | gateway/server_link.c:286-313 | One read appends, splits and delivers, or empties the buffer when it does not fit |
| LineParser.LineReceiver.Clear | gateway/server_link.c:166-169 | A new connection starts with nothing buffered |
| LineParser.LinesPerFeed | common/line_parser.c:34-97 | There are as many lines as line feeds |
| LineParser.LineIsSpan | common/line_parser.c:34-97 | Line number k is the text between its line feeds, one carriage return at its end taken off |
| LineParser.ReturnIsTaken | common/line_parser.c:61-69 | A line ended by CR LF is its text; one ended by LF alone keeps every byte |
| LineParser.LinesResume | common/line_parser.c:34-97 | Splitting a stream can be interrupted anywhere and resumed from the remainder |
| LineParser.ShortLinesArrive | gateway/server_link.c:286-313 | When no line is longer than capacity minus one read, any chunking delivers the lines of the whole stream |
| LineParser.GatewayLinesArrive | gateway/wifi_client.c:449-487 | With 1024 byte buffers and reads of at most 256: lines of at most 769 bytes always arrive |
| LineParser.LongerLineIsLost | gateway/wifi_client.c:449-487 | With one byte more a full read loses the line |
| LineParser.AlwaysArrivesIff | gateway/server_link.c:286-313 | For every capacity, read size and line: the line is delivered under every chunking if and only if it leaves room for one more full read |
| DeviceManager.DeviceManager.constructor | gateway/device_manager.c:24-39 | An empty registry |
| DeviceManager.DeviceManager.FindIndex | gateway/device_manager.c:6-22 | Finds the slot of a registered node, and only that |
| DeviceManager.DeviceManager.BindConnectionCollectCommands | gateway/device_manager.c:631-895 | New slot, same connection, transport conflict, takeover with the old queue handed over, or too small an array: the registry changes as the table specification says |
| DeviceManager.DeviceManager.DisconnectCollectCommands | gateway/device_manager.c:342-479 | Only the recorded fd and thread take a device offline and get its queue |
| DeviceManager.DeviceManager.EnqueueCommand | gateway/device_manager.c:486-548 | A command joins the end of an online device's queue or is refused with the right status |
| DeviceManager.DeviceManager.TryDequeueCommand | gateway/device_manager.c:557-629 | The recorded thread takes the head of the queue; the fd is not compared |
| DeviceManager.DisconnectTakesIff | gateway/device_manager.c:342-479 | Only the recorded fd and thread take a node offline, only if the queue fits, and then they get all of it; otherwise nothing changes |
| DeviceManager.DequeueTakesIff | gateway/device_manager.c:557-629 | The recorded thread of an online node gets exactly the oldest command if there is one; otherwise nothing changes |
| DeviceManager.Pushed | gateway/device_manager.c:536-543 | Storing at the tail of the ring appends to the queue it stands for |
| DeviceManager.Popped | gateway/device_manager.c:620-624 | Advancing the head of the ring removes the first command of the queue it stands for |
| CommandRouting.OnTcpLine | gateway/gateway_app.c:928-1086 | A command line is queued at the end of its node's queue, or answered with a refusal that says not found, offline, full or internal, by the state of the registry; nothing else changes |
| CommandRouting.RefusalNamesCommand | gateway/gateway_app.c:806-916 | For every command that decodes: it can be queued, or its refusal fits 256 bytes |
| CommandRouting.TouchDevice | gateway/gateway_app.c:415-543 | The first accepted message binds the connection and takes the node over with its old queue; later messages must name the same node |
| GatewayProgress.RouteAcceptedIff | gateway/device_manager.c:486-548 | In every state of a run a command is accepted if and only if its node is online and fewer than eight wait |
| GatewayProgress.HearBindsIff | gateway/gateway_app.c:434-512 | In every state of a run the first message binds a connection if and only if the node is known on its transport or new with fewer than sixteen known, and the old queue comes along |
| GatewayProgress.QueueGoesOut | gateway/bluetooth_worker.c:49-154 | A serving worker can take its whole queue: what can be printed is written in order, the rest refused in order, nothing is left |
| GatewayProgress.LeavingRefusesAll | gateway/wifi_client.c:535-598 | The owner's disconnect takes the node offline and refuses its whole queue in order |
| GatewayProgress.CommandsGoOut | gateway/gateway_app.c:415-543 | From every reachable state with a connection that has not identified itself, a bindable node's first message and up to eight commands lead to a state where every command was written in order or refused as not encodable |
| GatewayProtocol.StepKeepsInv | gateway/gateway_app.c:415-543 | Every step of every interleaving keeps ownership, conservation and order |
| GatewayProtocol.StepKeepsOwnership | gateway/device_manager.c:631-895 | Every online device is owned by exactly one live worker whose fd and thread are the recorded ones |
| GatewayProtocol.ExactlyOnce | gateway/bluetooth_worker.c:49-154 | In every reachable state each accepted command is in exactly one place: its device's queue, one worker's hands, the written log or one refusal |
| GatewayProtocol.NothingInvented | gateway/gateway_app.c:320-413 | Nothing is written or refused that was not accepted, and each refusal names the command's own target |
| GatewayProtocol.QueuesAreFifo | gateway/device_manager.c:486-629 | What has left a node's queue followed by what is in it is what was routed to the node, in order |
| GatewayProtocol.DequeuerOwns | gateway/device_manager.c:604-612 | Although dequeue compares only the thread, every successful dequeue goes to the live worker whose fd is recorded, over takeovers, reopened serial ports and reused thread ids |
| GatewayProtocol.SupersededIsHarmless | gateway/device_manager.c:419-426 | A worker that no longer owns its node changes nothing in the registry by polling or disconnecting |
| GatewayProtocol.RegistryShape | gateway/device_manager.c:785-887 | An offline device has fd -1 and no commands; every queued command targets its own device |
| GatewayProtocol.EightSlotsSuffice | gateway/gateway_app.c:439-466 | With arrays of eight commands the too-small error cannot occur |
| GatewayProtocol.RefusalsFit | gateway/gateway_app.c:320-413 | In every reachable state each refusal's line fits its 256 byte buffer, so none is dropped in printing |
| MessageQueue.MessageRing.constructor | gateway/message_queue.c:5-51 | An empty open queue |
| MessageQueue.MessageRing.Push | gateway/message_queue.c:53-110 | A turn of push appends, must wait, is refused by shutdown or by size |
| MessageQueue.MessageRing.Pop | gateway/message_queue.c:112-161 | A turn of pop takes the oldest message, must wait, or ends after shutdown and drain |
| MessageQueue.MessageRing.TryPop | gateway/message_queue.c:163-210 | The same without waiting |
| MessageQueue.MessageRing.Shutdown | gateway/message_queue.c:212-238 | Shutdown keeps the stored messages |
| QueueMonitor.MonitorSafe | gateway/message_queue.c:53-238 | The invariant holds over all interleavings with spurious wakeups |
| QueueMonitor.InitialIsSafe | gateway/message_queue.c:53-238 | Pops are a prefix of accepted pushes; no lost wakeup: while a thread sleeps and could go on, a signalled one is on its way; after shutdown nobody sleeps |
| QueueMonitor.PushStoresIff | gateway/message_queue.c:53-110 | A producer's turn stores if and only if the queue is open and holds fewer than 32; it sleeps exactly when it is open and full |
| QueueMonitor.StoredComeOut | gateway/message_queue.c:163-210 | A polling thread can take every stored message, oldest first, shut down or not |
| QueueMonitor.ShutdownDrains | gateway/message_queue.c:112-238 | After shutdown nothing is accepted and what is stored still comes out, in order |
| ServerLink.SendAll | gateway/tcp_client.c:99-195 | What the socket takes before it breaks decides: success exactly when that covers the data, and written is exactly the part it covers |
| ServerLink.SendIsSendAll | gateway/server_link.c:184-214 | One send of the pending message puts the loop's bytes on the connection; it ends the pending state only on success and drops the connection otherwise |
| ServerLink.DeliveredInOrder | gateway/server_link.c:124-234 | Over any pushes, partial sends, failures and reconnects: accepted = sent ++ pending ++ queued, and sent is what was written whole, once each, in that order |
| ServerLink.RouteNackWrites | gateway/gateway_app.c:884-902 | A routing refusal puts what the connection takes of its line there and changes nothing else |
| ServerLink.PushAcceptedIff | gateway/message_queue.c:53-110 | A push is accepted if and only if the queue is open and holds fewer than 32 |
| ServerLink.EverythingGoesOut | gateway/server_link.c:124-234 | From every state of a run the link can send all that was accepted, in order, leaving nothing pending or queued |
| ServerLink.RunParsesWholeLinesIff | common/line_parser.c:34-97 | Over every run and on every connection, torn routing refusals included: the server parses exactly the lines written whole if and only if no part of a torn line stands in front of a whole one there |
| ServerLink.NothingTornArrives | gateway/server_link.c:184-214 | When routing refusals are written completely, whatever prefix of a connection's bytes arrives gives a prefix of its whole lines |
| ServerLink.AtMostOnceInOrder | gateway/server_link.c:124-234 | Over all connections of such a run, each cut anywhere: the queue messages the server parses are accepted messages in acceptance order, none twice |
| RelayedLines.TornNackSwallowsMessage | gateway/gateway_app.c:884-902 | For any routing refusal torn after its first byte and any queue message: a reachable run in which the message counts as sent and the server gets one merged line that it ignores |
| ServerLink.ServerBufferSuffices | server/main.c:873-903 | Lines of at most 256 bytes never overflow the server's 4096 byte buffer, however the bytes are cut into reads |
| RelayedLines.PushIsLine | gateway/gateway_app.c:276-318 | What is pushed is one line: line feed at the end and nowhere else |
| RelayedLines.WifiPushArrives | gateway/gateway_app.c:1088-1342 | What is pushed for a line of a WiFi stream is one line; the server reads it as meant if and only if the identity is accepted, the JSON fits and the search routes it |
| RelayedLines.SerialPushArrives | gateway/gateway_app.c:556-776 | What is pushed for a frame delivered from a serial stream is one line; the server reads it as meant if and only if the identity is accepted, the JSON fits, the texts are balanced and the search routes it |
| RelayedLines.ServerSeesRun | server/main.c:858-903 | Over any run with complete routing refusals and any reconnects, whatever prefix of each connection arrives and however reads cut it: the server parses the first lines, takes each for the message meant, and the queue messages among them are accepted ones in order, none twice |
| CommandManager.CommandTable.constructor | server/command_manager.c:66-86 | 64 free entries, sequence 1 next |
| CommandManager.CommandTable.Send | server/command_manager.c:140-231 | A well-formed command takes the first free slot and the next sequence; otherwise nothing changes |
| CommandManager.CommandTable.OnReply | server/command_manager.c:233-315 | A reply settles the waiting command of that sequence and node and changes nothing else |
| CommandManager.CommandTable.Query | server/command_manager.c:317-343 | The state of the tracked command, if there is one |
| CommandManager.CommandTable.CheckTimeouts | server/command_manager.c:345-502 | Every expired entry is marked for resending or timed out, and as many of each as fit are reported, in table order |
| CommandManager.ReportedIff | server/command_manager.c:403-457 | A resend is reported if and only if it falls due and fewer than the capacity fall due before it |
| CommandManager.TimeoutReportedIff | server/command_manager.c:466-488 | A timeout is reported if and only if the check ends the entry's waiting and fewer than the capacity stand before it |
| CommandManager.CrowdedOut | server/main.c:705-718 | When more than 16 commands fall due together, the later ones lose a retry without being sent again |
| CommandRuns.ReportsCounted | server/command_manager.c:403-457 | Over a run a command is really handed out for resending exactly in the checks where it falls due with fewer than 16 due before it, each time as itself |
| CommandRuns.CrowdTimesOut | server/main.c:705-718 | Of up to 64 unanswered commands of one second the first 16 are sent again max_retries times, every later one ends TIMEOUT without ever being sent again |
| CommandRuns.RunsAreTidy | server/command_manager.c:140-231 | In every run slot i, once used, tracks sequence i + 1; no slot is reused |
| CommandRuns.SendsAreNumbered | server/command_manager.c:140-231 | The k-th accepted send gets sequence k in a fresh slot; a well-formed send is refused if and only if 64 were accepted |
| CommandRuns.EntriesEvolve | server/command_manager.c:140-502 | Sequence, sender, target and fields never change, and a final state is final |
| CommandRuns.SequencesIdentify | common/frame.c:189 | Tracked sequences are distinct, nonzero and not changed by the six-digit serial field |
| CommandRuns.AnsweredIff | server/command_manager.c:233-315 | A command ends ACKED (NACKED) if and only if the first reply matching its sequence and node said so before it timed out |
| CommandRuns.SerialReplyPairs | server/command_manager.c:117-138 | A reply whose sequence went through the six-digit field settles the command it was meant for and no other |
| CommandRuns.RetriesAreResends | server/command_manager.c:403-457 | Over a run a command falls due for resending exactly as often as its retry count says, at most max_retries times, each time with its own sequence, target and fields |
| CommandRuns.WaitingEnds | server/command_manager.c:381-489 | With a clock that does not go back, after max_retries + 1 checks a timeout apart a command is no longer waiting, whatever else happened |
| CommandRuns.SilentNodeTimesOut | server/command_manager.c:381-489 | Any well-formed command that nobody answers ends TIMEOUT after exactly max_retries resends, for every timeout and retry limit |
| CommandRuns.TimedOutMeans | server/command_manager.c:466-488 | A command times out only after max_retries resends fell due, a whole timeout after the last, and without a matching reply before |
| CommandCycle.RefusalSettles | gateway/gateway_app.c:320-413 | The gateway's refusal of a waiting command fits its buffer, is heard by the server as meant and marks exactly that command NACKED |
| CommandCycle.AckSettles | gateway/gateway_app.c:660-708 | A node's ACK frame, in any chunks and any parser state: the server marks exactly the answered command ACKED if and only if the gateway accepts the node's identity and the JSON fits 256 bytes, and otherwise changes nothing |
| CommandCycle.NackSettles | gateway/gateway_app.c:714-760 | A node's NACK frame, in any chunks and any parser state, marks exactly the refused command NACKED if and only if its identity is accepted |
| CommandCycle.LongAckSettlesNothing | gateway/gateway_app.c:697-708 | An acknowledgement that fits a frame but not the JSON buffer changes nothing at the server |
| CommandCycle.RoundTripSettles | server/main.c:533-595 | A waiting command that gets onto the serial line is received by the node, and its answer settles that command if and only if the identity is accepted and the answer fits |
| NodeStore.Store.constructor | server/node_store.c:70-101 | An empty store of the given capacity |
| NodeStore.Store.Find | server/node_store.c:119-135 | The first used slot with the id |
| NodeStore.Store.FindOldest | server/node_store.c:195-211 | The scan finds the first of the slots updated longest ago |
| NodeStore.Store.Update | server/node_store.c:163-219 | A report overwrites its node's slot, takes a new one, or replaces the oldest |
| NodeStore.Store.Query | server/node_store.c:221-247 | The data of a present node |
| NodeStore.Store.IsOnline | server/node_store.c:281-311 | A present node is online while its last report is younger than the timeout |
| NodeStore.HoldsLatest | server/node_store.c:163-219 | After any history the ids are distinct, at most capacity many, each with its latest data and time |
| NodeStore.LookupIsLatest | server/node_store.c:221-247 | A query is answered exactly when the node is held, with its last report |
| NodeStore.ForgetsTheOldest | server/node_store.c:195-211 | With a clock that does not go back, a node that reported but is absent was last heard from no later than every present one, and the store is full |
| NodeStore.HoldsMostRecentIff | server/node_store.c:163-219 | With a strictly increasing clock a node is present if and only if fewer than capacity other nodes reported after it |
| NodeStore.EvictsLeastRecentIff | server/node_store.c:195-211 | With a clock that does not go back, an eviction removes the node heard from longest ago if and only if, among the slots with the oldest time, the first one's node reported first |
| NodeStore.UniqueOldestIsLeastRecent | server/node_store.c:195-211 | In particular whenever no two slots share the oldest time |
| NodeStore.AlwaysMostRecentIff | server/node_store.c:163-219 | With such a clock the store holds exactly the capacity most recently updated nodes at every moment of a history if and only if every eviction in it met that condition |
| NodeStore.TiesForgetTheWrongNode | server/node_store.c:56-68 | For every capacity of at least two: when all nodes reported in one second and the first reports again, a new node replaces the first although the second is older |
| NodeStore.TiesAtServerCapacity | server/main.c:22 | The same with concrete nodes at the server's 64 slots |
| GatewayLoop.StepKeeps | gateway/gateway_loop.c:30-354 | Every step of main thread, Bluetooth thread, server thread and WiFi workers keeps the shutdown invariant |
| GatewayLoop.ConnectionGetsWorker | gateway/gateway_loop.c:231-305 | While the gateway accepts, a connection gets its worker: counted first, then live |
| GatewayLoop.WorkersCounted | gateway/wifi_client.c:635-677 | active_workers is the number of workers added and not removed, and no thread is live once destruction starts |
| GatewayLoop.NothingUsedAfterDestroy | gateway/gateway_loop.c:313-351 | No step of any thread uses, and nobody destroys twice, a destroyed queue, group or device manager; failure paths included |
| GatewayLoop.NobodyStuckInPush | gateway/gateway_loop.c:320-334 | Once shutdown is signalled every thread inside push returns at its next turn |
| GatewayLoop.AlwaysCompletes | gateway/gateway_loop.c:313-353 | From every reachable state in which shutdown has begun there is a schedule to the end of gateway_loop_run: no deadlock |

## Left out

- Sockets, serial port, `poll`, `fcntl`, `accept`, signals, standard input, printing and statistics output: a write is a
  number of accepted bytes, a connection delivers a prefix of what was written, a clock is a parameter.
- NULL checks, `malloc` failure and mutex initialisation errors.
- `device_manager_register`, `device_manager_unregister`, `device_manager_set_online` and `last_seen`: the gateway's workers
  do not call the first three, and the time stamp decides nothing.
- Device types, `frame_fields_find` and the mock nodes: easy members.
- Counters that only feed the printed statistics, and the parser's statistics as 32-bit values: they are unbounded here.
- The mode of `command_manager_check_timeouts` in which the caller passes no arrays and only wants counts.
- `snprintf` into a caller's buffer is a string that is built when it fits; the bytes of a buffer after a failed build are
  not modelled.
- Casting an out-of-range value to `int` (legacy `led`, `temperature`, `humidity`) is taken to wrap in two's complement,
  and `long` and `size_t` to have 64 bits.
- GatewayProtocol: a worker's own code between two calls is one step, so a message that is being received is not cut in
  half by a takeover; a WiFi or serial write either succeeds or fails as a whole.
- DeviceManager: a device's ring is a value inside its record, so the array of records is updated slot by slot; the caller's
  output array is a returned sequence.
- ServerLink: a run is stated for messages that are lines, which `RelayedLines.PushIsLine` shows they are; losing the bytes
  a connection accepted but did not deliver is a prefix, as TCP promises.
- ServerSeesRun: stated for runs in which routing refusals are written completely, because a torn one falsifies it
  (`TornNackSwallowsMessage`), and whose messages survive printing and are routed, because others are read differently
  (`SerialRelayIff`).
- AckSettles: whether the gateway accepts the node's identity is a parameter here; `CommandRouting.TouchDevice` says when
  it does.
- CommandsGoOut, QueueGoesOut, EverythingGoesOut and StoredComeOut give a schedule that gets there, not that a given
  scheduler takes it.
- AlwaysCompletes: shows that an end can always be reached, not that a given scheduler reaches it; a worker's work between
  clearing the flag and leaving is not bounded.
- CommandRuns: one timeout and one retry limit for the whole run, as the server passes constants.
- When the Bluetooth thread cannot be created the device manager is never destroyed (`gateway/gateway_loop.c:166-186`); the
  model takes the same steps and the proofs say only that nothing destroyed is used.

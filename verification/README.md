# Verification of the Zigbee gateway's protocol core

A Dafny model of the parts of the gateway that have to be exactly right, with proofs about them. Each module models one
component; `dafny verify dfyconfig.toml` checks them all.

- **The wire to the NCP.** `Bytes`, `Crc`, `CrcTables` and `CrcAnswers` define the checksums by bit-by-bit polynomial
  division, prove the table loops equal to it and pin the published check values. `ZbossFrame`, `ZbossIntegrity`,
  `ByteReader`, `RawReader`, `Hdlc` and `WireTheorem` model both framings (HDLC follows sections 4.2 and Appendix C.2 of
  RFC 1662), the decoder with its possible run-time panics, and the two stream readers, up to a theorem about a whole
  damaged stream.
- **ZCL values and records.** `Zcl`, `ZclRoundTrip`, `ZclConversions`, `ZclRecords`, `ZclRecordTheorems`,
  `DeviceProperties` and `TuyaValues` model the value codec, the record printers and parsers with their own size table, and
  the two vendor formats.
- **Concurrent protocols.** `Interviews`, `DeviceStore`, `AddrIndex`, `Debounce`, `Requests`, `Lifecycle`, `LinkAck` and
  `WsHub` are step systems over `Runs`: a step is one critical section, one transaction or one channel operation, and the
  theorems hold of every state that any sequence of possible steps can reach. Beside each stands a class with the fields
  the program has, whose methods are proved to make those steps.
- **Script files.** `Lines`, `Scripts`, `ScriptTheorems` and `ScriptText` model the printer and the two scanners of script files.

`Sets` has one fact about sizes. `Outcomes` holds the result types: a Go function can return a value, return an error, or panic.

The premises the theorems need appear as `requires` or as predicates named `Polite`: at most 255 requests may start after
one that is still alive; no join takes a short address another stored device holds; a late acknowledgement is of one of the
two frames before; a reset and a Close do not overlap. For the first three a lemma shows what goes wrong without it.

Where the code and its comments differ, the model follows the code:

- the field `closed` of the NCP is documented to prevent `resetState` on a closed NCP (`internal/ncp/nrf52840.go:65`), but
  nothing reads it there: `Lifecycle.OnlyResetRevives`;
- the check before an interview's save is documented to prevent a deleted device from coming back
  (`internal/coordinator/device_manager.go:587`); it does not reach an interview that registers after the leave
  (`Interviews.LeaveMissesExactlyPending`), and what does prevent it is that the save never adds a record
  (`AddrIndex.StaysDeletedIff`);
- every integer type checks its range when encoded except the half float, which is cut to two bytes
  (`internal/zcl/types.go:370-377`): `ZclRoundTrip.NumbersSurvive`.

## Model

| member | source | states |
|---|---|---|
| `Crc.BurstDetected` | internal/ncp/nrf52840_zboss.go:301-334 | a remainder of 8 or 16 bits changes under every error burst of at most that many bits, whatever the data, its length and the initial register |
| `Crc.DivideInjective` | internal/ncp/nrf52840_zboss.go:318-334 | feeding the same bits keeps different registers different, so an error that has reached the register never cancels itself |
| `Crc.FcsResidue` | internal/ncp/nrf52840_hdlc.go:79-97 | RFC 1662 Appendix C.2: the two check bytes agree with the data exactly when the register over all of it ends at 0xF0B8 |
| `Crc.Crc16Linear` | internal/ncp/nrf52840_zboss.go:328-334 | the CRC-16 of the exclusive or of two equally long inputs is the exclusive or of their CRCs |
| `Crc.Crc8Residue` | internal/ncp/nrf52840_zboss.go:318-325 | the CRC-8 byte agrees with its data exactly when the bitwise register over both ends at one fixed residue |
| `Crc.CheckOfInjective` | internal/ncp/nrf52840_hdlc.go:81 | different check bytes are different checks |
| `CrcTables.FcsTableCorrect` | internal/ncp/nrf52840_hdlc.go:100-133 | each of the 256 table entries is eight bitwise division steps by 0x8408 |
| `CrcTables.TableStep` | internal/ncp/nrf52840_hdlc.go:91-97 | one table step is the division of eight bits |
| `CrcTables.RunTable` | internal/ncp/nrf52840_zboss.go:328-334 | the table loop computes the remainder of bit-by-bit division, from any start |
| `CrcTables.ComputeCrc16` | internal/ncp/nrf52840_zboss.go:328-334 | the CRC-16 loop equals bitwise division from 0 |
| `CrcTables.ComputeFcs16` | internal/ncp/nrf52840_hdlc.go:91-97 | the FCS loop equals complemented bitwise division from 0xFFFF |
| `CrcTables.InitCrc8Table` | internal/ncp/nrf52840_zboss.go:301-316 | the table filled at start-up holds eight bitwise steps for every byte value |
| `CrcTables.ComputeCrc8` | internal/ncp/nrf52840_zboss.go:318-325 | the CRC-8 loop over that table equals bitwise division |
| `CrcAnswers.Crc16Answer` | internal/ncp/nrf52840_zboss.go:328-334 | the published check value: the CRC-16 of the characters 123456789 is 0x2189 |
| `CrcAnswers.Fcs16Answer` | internal/ncp/nrf52840_hdlc.go:91-97 | the FCS of the same characters is 0x906E |
| `CrcAnswers.Crc8Answer` | internal/ncp/nrf52840_zboss.go:318-325 | their CRC-8 is 0xD8 |
| `ZbossFrame.DataFlagsMeaning` | internal/ncp/nrf52840_zboss.go:287-297 | the flags of a data frame give back the two sequence bits and are not an acknowledgement's |
| `ZbossFrame.AckFlagsMeaning` | internal/ncp/nrf52840_zboss.go:287-297 | the flags of an acknowledgement give back its two sequence bits and mark it as one |
| `ZbossFrame.FlagBits` | internal/ncp/nrf52840_zboss.go:287-297 | in any flags byte: the sequence is bits 2 and 3, the acknowledged sequence bits 4 and 5, bit 0 marks an acknowledgement |
| `ZbossFrame.EncodeDataFrame` | internal/ncp/nrf52840_zboss.go:353-378 | filling the slice in place gives the frame of the format, or the panic when the wrapped size is too small |
| `ZbossFrame.EncodeRequest` | internal/ncp/nrf52840_zboss.go:340-351 | the request header is put in front of the payload and framed, with the uint16 wrap of the size |
| `ZbossFrame.EncodeAck` | internal/ncp/nrf52840_zboss.go:381-390 | the seven bytes of an acknowledgement |
| `ZbossIntegrity.DecodePanicsIff` | internal/ncp/nrf52840_zboss.go:395-481 | decoding runs out of a slice exactly on a checked data frame whose size field is below 5 or within two of the uint16 limit |
| `ZbossIntegrity.WellSizedNeverPanics` | internal/ncp/nrf52840_zboss.go:395-481 | every size the raw reader yields is enough for every index and slice |
| `ZbossIntegrity.RefusedHeader` | internal/ncp/nrf52840_zboss.go:395-419 | which of the five errors a header gives, as the first of five conditions on its bytes, said with byte literals |
| `ZbossIntegrity.AfterHeader` | internal/ncp/nrf52840_zboss.go:429-443 | behind a good header: an acknowledgement is accepted whatever follows; else exactly the sizes 5 and 6 are too short, and exactly two bytes other than the CRC-16 of the rest are a mismatch |
| `ZbossIntegrity.RequestRoundTrip` | internal/ncp/nrf52840_zboss.go:340-378 | an encoded request decodes to its call, number, sequence bits and payload if and only if its size field stays below 0xFFFE |
| `ZbossIntegrity.AckRoundTrip` | internal/ncp/nrf52840_zboss.go:381-432 | an acknowledgement decodes to itself |
| `ZbossIntegrity.RequestBytes` | internal/ncp/nrf52840_zboss.go:340-378 | the bytes of a request as literals: signature, size, type 6, fragment bits and sequence, CRC-8, CRC-16, version, type, call, number, payload |
| `ZbossIntegrity.AckBytes` | internal/ncp/nrf52840_zboss.go:381-390 | the bytes of an acknowledgement as literals |
| `ZbossIntegrity.DataFrameDecodes` | internal/ncp/nrf52840_zboss.go:353-378 | a data frame that does not wrap passes both checks and yields its high-level data; the next three rows say what every such data decodes to |
| `ZbossIntegrity.ResponseRoundTrip` | internal/ncp/nrf52840_zboss.go:445-481 | the frame around 00 01, call, number, status category, status code and payload decodes to exactly these if and only if its size field stays below 0xFFFE |
| `ZbossIntegrity.IndicationRoundTrip` | internal/ncp/nrf52840_zboss.go:445-481 | the same of 00 02, call and payload |
| `ZbossIntegrity.RefusedData` | internal/ncp/nrf52840_zboss.go:445-473 | exactly the data under 4, 5 or 7 bytes, by type, is too short, and exactly a type above 2 is unknown; all other starts with version, type and call |
| `ZbossIntegrity.OversizedFrame` | internal/ncp/nrf52840_zboss.go:353-378 | no data frame that wraps is decoded at its length |
| `ZbossIntegrity.HeaderBurstRejected` | internal/ncp/nrf52840_zboss.go:395-414 | any burst of at most 8 bits in size, type, flags and CRC-8 is an error |
| `ZbossIntegrity.BodyBurstRejected` | internal/ncp/nrf52840_zboss.go:439-443 | any burst of at most 16 bits in the high-level data is an error |
| `ZbossIntegrity.TwoBytesRejected` | internal/ncp/nrf52840_zboss.go:439-443 | any change confined to two adjacent bytes of the high-level data is an error |
| `ZbossIntegrity.CheckFieldRejected` | internal/ncp/nrf52840_zboss.go:439-443 | any change of the CRC-16 field alone is an error |
| `ZbossIntegrity.ByteRejected` | internal/ncp/nrf52840_zboss.go:395-481 | replacing any single byte of a frame, wherever it is, is an error |
| `ZbossIntegrity.RequestFrameExact` | internal/ncp/nrf52840_zboss.go:340-378 | every encoded request is such a frame |
| `ZbossIntegrity.AckFrameExact` | internal/ncp/nrf52840_zboss.go:381-390 | and so is every acknowledgement |
| `ByteReader.Reader.ReadByte` | internal/ncp/nrf52840_hdlc.go:173-183 | takes the next byte of the stream, and remembers that it can be put back |
| `ByteReader.Reader.UnreadByte` | internal/ncp/nrf52840_hdlc.go:184-187 | puts back the byte just read |
| `ByteReader.Reader.ReadFull` | internal/ncp/nrf52840_hdlc.go:194-215 | takes exactly n bytes, or ends the stream |
| `RawReader.ReadRawFrame` | internal/ncp/nrf52840_hdlc.go:169-217 | the loop with its one-byte look-back computes the scan and leaves the reader behind the frame |
| `RawReader.ScanSound` | internal/ncp/nrf52840_hdlc.go:169-217 | for every stream, a frame returned starts with the signature, is as long as its size field says, and lies in the stream |
| `RawReader.ReaderNeverPanics` | internal/ncp/nrf52840_hdlc.go:194-216 | for every byte stream whatsoever, no frame the reader returns makes the decoder panic |
| `RawReader.SkipsJunk` | internal/ncp/nrf52840_hdlc.go:172-191 | junk that clears, every signature in it being followed inside it by a size out of range, is skipped exactly, ending in DE or not |
| `RawReader.FindsFrame` | internal/ncp/nrf52840_hdlc.go:169-217 | the frame behind junk is the next one found, whole, if and only if the junk clears |
| `RawReader.FalseSignatureEatsFrame` | internal/ncp/nrf52840_hdlc.go:194-202 | a signature alone does not clear: it costs the frame behind it its own |
| `RawReader.NoSignatureClears` | internal/ncp/nrf52840_hdlc.go:172-191 | junk without an adjacent DE AD clears |
| `RawReader.ScanAllFrames` | internal/ncp/nrf52840_hdlc.go:169-217 | any list of frames separated by junk that clears is returned exactly, in order, before whatever the rest of the stream holds |
| `RawReader.NothingInJunk` | internal/ncp/nrf52840_hdlc.go:169-217 | junk that clears holds no frame |
| `RawReader.ReadLoop` | internal/ncp/nrf52840.go:227-316 | reading and decoding until the port ends hands on exactly the frames that decode, in order |
| `WireTheorem.WireRoundTrip` | internal/ncp/nrf52840.go:227-316 | requests encoded, mixed with junk that clears, and each possibly damaged in one byte behind its size field: exactly the undamaged ones arrive, complete and in order, before what the rest of the stream holds |
| `Hdlc.Encode` | internal/ncp/nrf52840_hdlc.go:30-51 | the stuffing loop gives flag, escaped data and FCS, flag |
| `Hdlc.EscapedBytes` | internal/ncp/nrf52840_hdlc.go:30-51 | 7E becomes 7D 5E, 7D becomes 7D 5D, and every other byte stays |
| `Hdlc.FrameBytes` | internal/ncp/nrf52840_hdlc.go:30-51 | flag 7E, the stuffed data and FCS, low byte first, flag 7E |
| `Hdlc.Decode` | internal/ncp/nrf52840_hdlc.go:54-88 | the unstuffing loop and the FCS test give the specified result, errors included |
| `Hdlc.ReadFrame` | internal/ncp/nrf52840_hdlc.go:136-165 | the loop reads what the state machine scans and leaves the reader behind it |
| `Hdlc.DecodeInside` | internal/ncp/nrf52840_hdlc.go:30-88 | decoding the inside of an encoding gives the data back, for all data; the inside has no flag byte |
| `Hdlc.AcceptsExactlyGoodFcs` | internal/ncp/nrf52840_hdlc.go:74-88 | unescaped data is accepted exactly when it has two bytes or more and its register ends at 0xF0B8 |
| `Hdlc.Refused` | internal/ncp/nrf52840_hdlc.go:54-88 | exactly which inputs give which of the three errors |
| `Hdlc.BurstRejected` | internal/ncp/nrf52840_hdlc.go:79-88 | a burst of at most 16 bits in accepted data is rejected |
| `Hdlc.ScanSound` | internal/ncp/nrf52840_hdlc.go:136-165 | every frame read is a non-empty stretch of the stream without flags, of at most 4096 bytes |
| `Hdlc.StreamRoundTrip` | internal/ncp/nrf52840_hdlc.go:30-88 | concatenated encodings are read and decoded in order; one that is too long is lost alone |
| `ZclRoundTrip.LayoutsAgree` | internal/zcl/types.go:47-76 | the size table, the decoder and the encoder lay out every encodable type the same way |
| `ZclRoundTrip.DecodeEncode` | internal/zcl/types.go:145-468 | decoding what was encoded, with anything behind it, gives the value in its canonical form and consumes exactly the encoding |
| `ZclRoundTrip.NumbersSurvive` | internal/zcl/types.go:249-377 | an integer keeps its value through the wire unless it is sent as a half float above 0xFFFF, and then it does not |
| `ZclRoundTrip.EncodeDecode` | internal/zcl/types.go:145-468 | encoding what was decoded gives the consumed bytes back if and only if the type has an encoding, the value is not an "invalid" string, a Boolean byte is 0 or 1, and a single float widens to double and back unchanged |
| `ZclRoundTrip.DecodeStable` | internal/zcl/types.go:145-246 | a decoded value does not depend on what follows it |
| `ZclConversions.UnsignedFrom` | internal/zcl/types.go:261-369 | what every kind of value becomes in an unsigned type of k bytes, kind by kind: not convertible, overflow, or these bytes; a double, which is what JSON numbers arrive as, is refused if it is negative and otherwise cut to an integer |
| `ZclConversions.SignedFrom` | internal/zcl/types.go:295-349 | the same for signed types, in two's complement |
| `ZclConversions.BooleanFrom` | internal/zcl/types.go:251-260 | what every kind becomes as a Boolean; zero is false |
| `ZclConversions.HalfFloatFrom` | internal/zcl/types.go:370-377 | what every kind becomes as a half float: the low two bytes of its number |
| `ZclConversions.FloatsFrom` | internal/zcl/types.go:379-396 | what every kind becomes as a single or double float, and which it refuses |
| `ZclConversions.BytesFrom` | internal/zcl/types.go:397-465 | what every kind becomes as an address or a string; the longest string is 254 or 65534 bytes |
| `ZclConversions.NothingElse` | internal/zcl/types.go:249-468 | every other type is unsupported, whatever the value |
| `ZclConversions.ReadsUnsigned` | internal/zcl/types.go:145-204 | the width and the number of every type read as unsigned, or not enough data |
| `ZclConversions.ReadsSigned` | internal/zcl/types.go:145-204 | a signed number is the one in range with the bytes read |
| `ZclConversions.ReadsOthers` | internal/zcl/types.go:145-204 | no data, Boolean, floats and addresses |
| `ZclConversions.ReadsShortString` | internal/zcl/types.go:206-225 | length 0xFF is invalid, another is followed by that many bytes, or an error |
| `ZclConversions.ReadsLongString` | internal/zcl/types.go:227-245 | the same with two bytes and 0xFFFF |
| `ZclConversions.ReadsNothingElse` | internal/zcl/types.go:145-247 | every other type is unsupported |
| `ZclRecordTheorems.TablesAgree` | internal/ncp/zcl_parse.go:64-106 | the two size tables agree on every type zcl gives a fixed size; the exact list of widths only ncp knows |
| `ZclRecordTheorems.CutByType` | internal/ncp/zcl_parse.go:64-106 | how many bytes each of the 256 types takes of any data, as literals, the two kinds of length prefix included |
| `ZclRecords.BuildWriteAttributes` | internal/ncp/nrf52840_zboss.go:498-511 | header, then each record as identifier, type and bytes |
| `ZclRecordTheorems.RecordBytes` | internal/ncp/nrf52840_zboss.go:498-511 | a record is the low byte of its identifier, the high one, its type and its bytes |
| `ZclRecords.ParseReports` | internal/ncp/nrf52840_zboss.go:542-601 | the loop over positions returns the specified records |
| `ZclRecords.ParseResponses` | internal/ncp/zcl_parse.go:11-62 | the re-slicing loop returns the specified records, and ends on every input |
| `ZclRecordTheorems.ReportsUnique` | internal/ncp/nrf52840_zboss.go:542-601 | the result is the one list of complete records that prints to a prefix with no complete record behind it |
| `ZclRecordTheorems.ReportsTruncated` | internal/ncp/nrf52840_zboss.go:542-601 | on any truncation of an input the result is a prefix of the whole result |
| `ZclRecordTheorems.ReportBytes` | internal/ncp/nrf52840_zboss.go:542-601 | a record in these bytes, in front of anything, is the next one read |
| `ZclRecordTheorems.ResponsesOfPrinted` | internal/ncp/zcl_parse.go:11-62 | any well-formed mix of success and error records, printed, is parsed back |
| `ZclRecordTheorems.ResponseBytes` | internal/ncp/zcl_parse.go:11-62 | the same for a failed and for a successful response |
| `ZclRecordTheorems.ResponseEnds` | internal/ncp/zcl_parse.go:11-62 | where the list ends, and that a value cut off or of unknown size is reported without one |
| `ZclRecordTheorems.ResponsesTruncated` | internal/ncp/zcl_parse.go:11-62 | on a truncation of an input the result is a prefix of the whole result if and only if the cut does not fall inside the value of a success record; `ResponsesTruncatedDiffer` is a cut that does |
| `ZclRecordTheorems.EncodedIsCut` | internal/ncp/zcl_parse.go:64-106 | what EncodeValue produces is cut as one piece by ncp's own table |
| `ZclRecordTheorems.WriteRoundTrip` | internal/ncp/nrf52840_zboss.go:498-601 | writing any list of encodable attributes, cutting the body and decoding the pieces gives the list back, each piece fully consumed |
| `DeviceProperties.DecodeXiaomiTlv` | internal/coordinator/properties.go:273-294 | the loop over positions gives the specified map and error |
| `DeviceProperties.TlvAppend` | internal/coordinator/properties.go:273-294 | decoding a fully consumed list in front of another is its map overridden by the other's |
| `DeviceProperties.TlvRoundTrip` | internal/coordinator/properties.go:273-294 | printed tagged values come back, a later one of a tag winning |
| `DeviceProperties.TlvEnds` | internal/coordinator/properties.go:273-294 | behind printed values, less than a header ends quietly, and a value that does not decode with an error that keeps them |
| `DeviceProperties.FoldBitmap` | internal/coordinator/properties.go:254-259 | the fold of a bitmap is its big-endian number modulo 2^32 |
| `DeviceProperties.DecodeTuyaDps` | internal/coordinator/properties.go:217-268 | the loop over data points gives the map and error of the specification, whose six types `TuyaValues.Stores` pins |
| `DeviceProperties.DpsRoundTrip` | internal/coordinator/properties.go:217-268 | printed data points come back as what their data means, a later one of an identifier winning |
| `TuyaValues.Stores` | internal/coordinator/properties.go:231-262 | what a data point of each type stores, byte by byte: any nonzero byte is true; types 1, 2 and 4 store nothing when shorter than 1, 4 and 1 bytes |
| `TuyaValues.ReadingsStored` | internal/coordinator/properties.go:217-268 | readings (flags, numbers, enumerations, bitmaps, text, raw bytes) printed as data points are stored as themselves, a later one of an identifier winning |
| `TuyaValues.PayloadRoundTrip` | internal/coordinator/properties.go:217-268 | the same of a whole command; up to three bytes behind are ignored, a data point longer than what is left is an error that keeps the rest |
| `Interviews.InvStep` | internal/coordinator/device_manager.go:477-498 | every critical section keeps the invariant of generations, map entries and contexts |
| `Interviews.AtMostOneLive` | internal/coordinator/device_manager.go:477-498 | in every interleaving, of two live interviews of a device there is one; it is the map's entry with its generation; no entry outlives its interview |
| `Interviews.CleanupRemovesOwnOnly` | internal/coordinator/device_manager.go:480-487 | the deferred cleanup, which compares generations, removes an entry exactly when it is its own |
| `Interviews.NoEntryLost` | internal/coordinator/device_manager.go:185-191 | an entry disappears or is replaced only with its interview's context cancelled, and only by the four sections named |
| `Interviews.CancelledForever` | internal/coordinator/device_manager.go:587-592 | a cancelled interview is never live again, so the check before its save can only turn it off |
| `Interviews.LeaveSilences` | internal/coordinator/device_manager.go:185-191 | after a leave every interview of the device registered by then is dead for good |
| `Interviews.LeaveMissesExactlyPending` | internal/coordinator/device_manager.go:185-191 | in every reachable state, a leave keeps an interview of its device from ever being live again if and only if it is not one still to register with a live context |
| `Interviews.LeaveRemovesEntry` | internal/coordinator/device_manager.go:820-826 | a leave takes out its device's entry and cancels its owner, and changes no other entry and no other interview |
| `Interviews.RegisterTakesOver` | internal/coordinator/device_manager.go:492-498 | registering makes the interview the device's entry and cancels the former owner, nothing else |
| `Interviews.SpawnedComesAlive` | internal/coordinator/device_manager.go:287-289 | unless the coordinator has stopped, the interview an announce spawns can become live |
| `Interviews.ExpiredForever` | internal/coordinator/device_manager.go:489-490 | an interview whose time is up is never live again; its entry waits for its own cleanup |
| `Interviews.PendingComesAlive` | internal/coordinator/device_manager.go:477-498 | such an interview takes its generation, registers and is live |
| `Interviews.StopSilences` | internal/coordinator/device_manager.go:489-490 | once the coordinator's context is cancelled no interview is ever live again |
| `Interviews.WaitLeavesNone` | internal/coordinator/device_manager.go:61-70 | when the wait returns, all interviews being over, the map is empty |
| `Interviews.WaitCanEnd` | internal/coordinator/device_manager.go:61-70 | from every reachable state all interviews can go on to their end, and then the map is empty: the wait can return |
| `Interviews.Registry.TakeGen` | internal/coordinator/device_manager.go:477-490 | the generation and the context, as one step of the system |
| `Interviews.Registry.Register` | internal/coordinator/device_manager.go:492-498 | the previous entry's context is cancelled and the entry replaced |
| `Interviews.Registry.Cleanup` | internal/coordinator/device_manager.go:480-487 | the entry is deleted only when its generation matches |
| `Interviews.Registry.Cancel` | internal/coordinator/device_manager.go:820-826 | cancels and deletes the device's entry |
| `Interviews.Registry.CancelAll` | internal/coordinator/device_manager.go:61-70 | the loop that cancels and deletes entry by entry is the one step that empties the map |
| `DeviceStore.BoltStore.SaveDevice` | internal/store/bolt.go:46-58 | puts the record under its address, or on an error of the database nothing |
| `DeviceStore.BoltStore.GetDevice` | internal/store/bolt.go:60-77 | the record, not found, or an error of the database |
| `DeviceStore.BoltStore.UpdateDevice` | internal/store/bolt.go:79-102 | changes a stored record if the function agrees; which error otherwise; never adds or removes a key |
| `DeviceStore.BoltStore.ListDevices` | internal/store/bolt.go:114-132 | every stored record exactly once, in the order of the keys |
| `DeviceStore.BeforeByFirstDifference` | internal/store/bolt.go:114-132 | the order of keys is ascending by the first place where they differ, a key before its extensions |
| `AddrIndex.InvStep` | internal/coordinator/device_manager.go:116-326 | every section of the handlers, of removals and of updates keeps the invariant, rebuilds in progress included |
| `AddrIndex.IndexNeverWrong` | internal/coordinator/device_manager.go:72-326 | in every state reachable from any database whose short addresses are distinct, the index at a stored device's short address is absent or that device |
| `AddrIndex.FoundIsScan` | internal/coordinator/device_manager.go:313-325 | the loop over any listing finds what a linear scan finds |
| `AddrIndex.LookupIsScan` | internal/coordinator/device_manager.go:295-326 | the answer of lookupOrRebuild is the linear scan's if and only if the scan finds a device or the index has no entry |
| `AddrIndex.StoredDeviceIsFound` | internal/coordinator/device_manager.go:295-326 | a stored device is always found under its short address |
| `AddrIndex.FirstLook` | internal/coordinator/device_manager.go:296-301 | an entry found under the read lock is the answer and changes nothing; without one the store is looked through |
| `AddrIndex.SecondLook` | internal/coordinator/device_manager.go:303-325 | under the write lock an entry made since the first look is the answer and nothing is rebuilt; otherwise the index becomes the listing |
| `AddrIndex.RebuildIndexesAll` | internal/coordinator/device_manager.go:116-128 | after a rebuild every stored device that is where it was listed is in the index |
| `AddrIndex.ReaderCanEnd` | internal/coordinator/device_manager.go:116-326 | a handler that fails changes nothing more, and the holder of the lock can always finish |
| `AddrIndex.SharedShortHidesDevice` | internal/coordinator/device_manager.go:134-158 | from every idle state, an announce of another device under a stored device's short address makes the other the only answer there |
| `AddrIndex.OldEntryOutlivesDevice` | internal/coordinator/device_manager.go:197-205 | from every reachable idle state, a device that comes back under another address and is removed can still answer there: the scan stops at the first entry |
| `AddrIndex.StaysDeletedIff` | internal/coordinator/device_manager.go:354-377 | for a device not in the store: every interleaving without a join or announce of it to come leaves it out if and only if none is in progress |
| `AddrIndex.AnnounceInProgressRestores` | internal/coordinator/device_manager.go:223-241 | an announce in progress does put the old record back |
| `AddrIndex.AnnounceLosesUpdate` | internal/coordinator/device_manager.go:223-241 | an update between a handler's read and its write is lost |
| `AddrIndex.UpdateSurvivesIff` | internal/store/bolt.go:79-102 | what an update stores outlives every join, announce and rebuild to come if and only if no handler has read an older record that it is about to save |
| `AddrIndex.DeviceManager.RemoveFirst` | internal/coordinator/device_manager.go:843-851 | removes at most one entry of the device, and one if there is any |
| `AddrIndex.DeviceManager.RebuildAddrIndex` | internal/coordinator/device_manager.go:116-128 | the index becomes what the listing of the store installs; on an error it stays |
| `AddrIndex.DeviceManager.LookupOrRebuild` | internal/coordinator/device_manager.go:295-326 | a hit changes nothing; a miss installs the listing and answers from it; an error gives no answer and changes nothing |
| `AddrIndex.DeviceManager.Record` | internal/coordinator/device_manager.go:131-161 | index and store after a join or announce that runs alone; on an error of the database the index alone |
| `AddrIndex.DeviceManager.RemoveDevice` | internal/coordinator/device_manager.go:813-864 | which error; an unknown device leaves everything as it was; a known one loses its interview, an index entry and, unless the deletion fails, its record, and only then its leaving is announced |
| `AddrIndex.DeviceManager.HandleLeave` | internal/coordinator/device_manager.go:179-217 | interview, index entry and record go, and the leaving is announced even when the deletion fails |
| `AddrIndex.RecordIsItsSteps` | internal/coordinator/device_manager.go:219-243 | the handler taken in steps, alone, reaches the state the method reaches |
| `AddrIndex.RecordedDevice` | internal/coordinator/device_manager.go:219-243 | the record saved keeps the time of joining and what was learned and takes the new address and time; a new device gets both times; no other record changes |
| `Debounce.CapKept` | internal/coordinator/device_manager.go:272-285 | after any announce that starts an interview the cache has at most 50 entries, whatever it had |
| `Debounce.CapAlways` | internal/coordinator/device_manager.go:272-285 | in every run the cache has at most 50 entries |
| `Debounce.StartsThreeSecondsApart` | internal/coordinator/device_manager.go:265-289 | from any state, two starts of one device with anything between them but its leave or a hard clear are at least three seconds apart; the soft eviction never lets one through |
| `Debounce.StartsIff` | internal/coordinator/device_manager.go:265-271 | an announce starts an interview if and only if its device has no entry or one at least 3 000 000 000 ns old |
| `Debounce.QuietDeviceStarts` | internal/coordinator/device_manager.go:265-289 | over runs: an announce of a device that has started nothing for three seconds starts an interview |
| `Debounce.CacheAfter` | internal/coordinator/device_manager.go:271-286 | the whole cache after any announce, with the cap of 50 and the minute as literals |
| `Debounce.LeaveAllowsRestart` | internal/coordinator/device_manager.go:193-195 | a leave between them lets the second start at any time, in every such state |
| `Debounce.JoinCache.Announce` | internal/coordinator/device_manager.go:265-289 | the check, the entry, the eviction loop with a reading of the clock per entry, and the hard clear; it starts if and only if there is no entry or one three seconds old |
| `Requests.AliveDistinct` | internal/ncp/nrf52840.go:104-106 | two calls in flight or with a reply still to come have different 8-bit numbers |
| `Requests.NumbersWrap` | internal/ncp/nrf52840.go:104-106 | the numbers count from 1 and go from 255 to 0 |
| `Requests.InvStep` | internal/ncp/nrf52840.go:131-174 | every section of request and of the read loop keeps the invariant |
| `Requests.RepliesMatchRequests` | internal/ncp/nrf52840.go:131-174 | in every run the pending table holds exactly the calls in flight, each under its number, and a caller gets at most one reply, its own |
| `Requests.ReplyInTimeIsReceived` | internal/ncp/nrf52840.go:131-174 | a reply that comes while its caller waits can reach it |
| `Requests.SendKeepsFirst` | internal/ncp/nrf52840.go:299-302 | a channel that has a reply keeps it and the later one is dropped; no other call changes |
| `Requests.CallCanEnd` | internal/ncp/nrf52840.go:131-174 | every call can give up and end, and then its number no longer means it |
| `Requests.DeleteRemovesOwn` | internal/ncp/nrf52840.go:138-142 | the deferred delete, by number alone, removes the caller's own entry and no other |
| `Requests.LateReplyAnswersWrongCall` | internal/ncp/nrf52840.go:293-310 | from every state, any reply still to arrive whose number a waiting call has by then can become that call's answer |
| `Requests.NumberComesBack` | internal/ncp/nrf52840.go:104-106 | 256 starts after a call that gave up, another waits under its number |
| `Requests.ReplyGoesByNumber` | internal/ncp/nrf52840.go:293-302 | a reply is put in a call's empty channel if and only if the table has the call under the reply's number |
| `Requests.RequestTable.NextTsn` | internal/ncp/nrf52840.go:104-106 | the next number, as a step of the system |
| `Requests.RequestTable.Lookup` | internal/ncp/nrf52840.go:293-299 | the channel is picked by the number in the frame |
| `Requests.RequestTable.Send` | internal/ncp/nrf52840.go:299-302 | a full channel keeps what it has |
| `Lifecycle.InvStep` | internal/ncp/nrf52840.go:584-702 | every section of reset, Close, requests and read loops keeps the invariant |
| `Lifecycle.ClosedAtMostOnce` | internal/ncp/nrf52840.go:598-604 | at most one read loop runs, done is closed at most once in its epoch, and no response channel twice |
| `Lifecycle.SendFindsChannelOpen` | internal/ncp/nrf52840.go:293-303 | a read loop never sends on a closed HL or ZCL channel |
| `Lifecycle.LoopServes` | internal/ncp/nrf52840.go:293-303 | the loop takes a registered caller's channel, sends on it and is between frames again |
| `Lifecycle.LoopStays` | internal/ncp/nrf52840.go:227-245 | it leaves only once done is closed |
| `Lifecycle.RegisteredAlone` | internal/ncp/nrf52840.go:131-137 | a caller registers under its number with an open channel that nobody else has |
| `Lifecycle.ClosesOnlyWithoutLoop` | internal/ncp/nrf52840.go:678-691 | response channels are closed only while no read loop runs |
| `Lifecycle.DrainReleases` | internal/ncp/nrf52840.go:1213-1226 | draining closes the channel of every caller still registered, exactly once |
| `Lifecycle.DeletedIsNotClosed` | internal/ncp/nrf52840.go:138-142 | a caller that has deleted its registration gets no close from a drain; the others stay registered |
| `Lifecycle.DeletedZclIsNotClosed` | internal/ncp/nrf52840.go:1093-1097 | the same of the ZCL table |
| `Lifecycle.CloseShuts` | internal/ncp/nrf52840.go:1201-1229 | when Close returns no read loop is left |
| `Lifecycle.StopClosesDone` | internal/ncp/nrf52840.go:1201-1210 | in every reachable state a first Close, a reset and a failed probe leave done closed once, and a second Close changes nothing |
| `Lifecycle.WaitCanEnd` | internal/ncp/nrf52840.go:598-604 | in every reachable state that waits for the read loop done is closed, and the loop can leave by itself, so the wait can end |
| `Lifecycle.CloseCanEnd` | internal/ncp/nrf52840.go:1201-1229 | from every reachable idle state Close can run to its end: no read loop, nothing pending |
| `Lifecycle.ResetCanEnd` | internal/ncp/nrf52840.go:584-702 | and a reset to its own: a new epoch with one read loop, nothing pending |
| `Lifecycle.ShutLasts` | internal/ncp/nrf52840.go:1201-1229 | after that nothing but a reset starts one again, whatever else happens |
| `Lifecycle.ResetRevivesClosed` | internal/ncp/nrf52840.go:667-702 | from every closed NCP a reset that goes through starts a read loop, and a second Close leaves it running |
| `Lifecycle.OnlyResetRevives` | internal/ncp/nrf52840.go:1201-1229 | a closed NCP has no read loop in any run without a reset, and has one in some run with one |
| `Lifecycle.Connection.CloseDone` | internal/ncp/nrf52840.go:598-604 | done is closed the first time only, and is closed once after it |
| `Lifecycle.Connection.CloseEach` | internal/ncp/nrf52840.go:678-691 | the loop closes one channel for each entry |
| `Lifecycle.Connection.DrainHl` | internal/ncp/nrf52840.go:678-684 | the HL table is drained and emptied |
| `Lifecycle.Connection.DrainZcl` | internal/ncp/nrf52840.go:686-692 | the ZCL table is drained and emptied |
| `Lifecycle.Connection.BeginClose` | internal/ncp/nrf52840.go:1202-1210 | the first Close closes done and marks the NCP closed; a second changes nothing |
| `LinkAck.InvStep` | internal/ncp/nrf52840.go:177-212 | every step of the writer and of arriving acknowledgements keeps the invariant |
| `LinkAck.SuccessIsOwnAck` | internal/ncp/nrf52840.go:177-212 | a write that succeeded was acknowledged as itself, after it was on the wire; no frame is put there more than four times |
| `LinkAck.FourWrites` | internal/ncp/nrf52840.go:177-212 | a time-out is followed by another write of the frame until the fourth, whose time-out is the failure |
| `LinkAck.SequenceCycle` | internal/ncp/nrf52840.go:114-120 | the sequences are 1, 2, 3 and again 1 |
| `LinkAck.QueuedIff` | internal/ncp/nrf52840.go:273-282 | an acknowledgement is queued if and only if fewer than four are waiting |
| `LinkAck.TakeMatchesIff` | internal/ncp/nrf52840.go:192-198 | an acknowledgement drawn ends the write if and only if it is of a frame a multiple of three away |
| `LinkAck.Link.NextPktSeq` | internal/ncp/nrf52840.go:114-120 | never 0, and the next of the cycle |
| `LinkAck.Link.Wait` | internal/ncp/nrf52840.go:188-209 | the inner loop drains acknowledgements until one has the wanted sequence |
| `LinkAck.Link.WriteWithAck` | internal/ncp/nrf52840.go:177-212 | the loop is the run of the system that the attempts describe; it succeeds if and only if that ends acknowledged; which error otherwise, how many attempts, and what was written |
| `LinkAck.WriteIsARun` | internal/ncp/nrf52840.go:177-212 | with acknowledgements at most two frames old, what the loop does is a run of the system, so its success is its own frame's acknowledgement |
| `WsHub.InvStep` | internal/web/handlers_ws.go:48-109 | every turn of the hub and of a write pump keeps the invariant |
| `WsHub.ClientsGetContiguousRun` | internal/web/handlers_ws.go:48-109 | at most 100 clients; each was given exactly the broadcasts from its registration to its removal, in order and without a gap; its channel is closed once, when it leaves |
| `WsHub.ClosedStaysClosed` | internal/web/handlers_ws.go:75-109 | nothing is put in a closed channel and none is closed twice |
| `WsHub.AcceptedIff` | internal/web/handlers_ws.go:61-73 | a client is accepted if and only if fewer than 100 are in the set; otherwise its channel is closed, empty |
| `WsHub.PumpTakesFirst` | internal/web/handlers_ws.go:158-169 | a write pump takes the message that has waited longest |
| `WsHub.UnregisterCloses` | internal/web/handlers_ws.go:75-83 | a client that unregisters is out of the set with its channel closed once, also when it was evicted before, and no other changes |
| `WsHub.BroadcastEvictsOnlySlow` | internal/web/handlers_ws.go:85-106 | a broadcast evicts exactly the clients with 64 messages waiting; the others get it |
| `WsHub.ShutdownClosesAll` | internal/web/handlers_ws.go:51-59 | when Run returns every channel is closed |
| `WsHub.StopEnds` | internal/web/handlers_ws.go:51-59 | a stop can end Run at its next turn, with every channel closed once and what it holds left to its client |
| `WsHub.Hub.Register` | internal/web/handlers_ws.go:61-73 | adds the client, or closes its channel when there are 100 |
| `WsHub.Hub.Unregister` | internal/web/handlers_ws.go:75-83 | removes and closes a client of the set; ignores any other |
| `WsHub.Hub.Offer` | internal/web/handlers_ws.go:91-100 | offers the message to each client once and lists the full ones |
| `WsHub.Hub.Evict` | internal/web/handlers_ws.go:101-105 | removes and closes those listed, each once |
| `WsHub.Hub.Broadcast` | internal/web/handlers_ws.go:85-106 | the two loops are the one step |
| `WsHub.Hub.Shutdown` | internal/web/handlers_ws.go:51-59 | the loop closes every client left |
| `Lines.SplitAppend` | internal/automation/manager.go:141 | splitting turns a newline between two texts into a boundary between their lines |
| `Lines.JoinSplit` | internal/automation/manager.go:184 | joining the split lines gives the text back |
| `Scripts.SerializeScript` | internal/automation/manager.go:190-216 | the builder gives metadata line, block and code |
| `Scripts.ParseFile` | internal/automation/manager.go:129-187 | the loops of the scanner and the search give the specified script |
| `Scripts.WhiteSpace` | internal/automation/manager.go:180-183 | the 25 characters a line that counts as empty may have |
| `Scripts.BlankCharByChar` | internal/automation/manager.go:180-183 | and a line counts as empty when all its characters are such |
| `ScriptText.MarkerTexts` | internal/automation/manager.go:190-216 | the texts of the markers and of a whole file, as literals |
| `ScriptText.WithoutMetadata` | internal/automation/manager.go:143-184 | a file whose first line is not metadata has none, and its code is all its lines outside blocks, the first included |
| `ScriptText.WithMetadata` | internal/automation/manager.go:143-162 | a first line of metadata is parsed from its fourth character on and is no part of the code |
| `ScriptTheorems.FindIsFirst` | internal/automation/manager.go:27 | the search for the end of a block finds its first occurrence, or there is none |
| `ScriptTheorems.MatchOfText` | internal/automation/manager.go:152-154 | the regular expression gives the XML of a saved file back if and only if no line of it but the first starts with the closing marker |
| `ScriptTheorems.LuaKept` | internal/automation/manager.go:156-184 | the line scanner gives the code back if and only if only blank lines leak out of the block and no line of the code opens one |
| `ScriptText.SurvivesIffTextFits` | internal/automation/manager.go:129-216 | a script survives saving and loading if and only if: no XML line but the first starts with the closing marker, and that one only if an opening line follows after blank lines; no code line starts with the opening marker; and code without XML encloses no text between markers |
| `ScriptText.BlankKept` | internal/automation/manager.go:156-174 | what the scanner takes out of a block is blank if and only if every closing line in it is followed, after blank lines, by an opening one |
| `ScriptText.MatchEncloses` | internal/automation/manager.go:27 | the regular expression finds a text if and only if behind the first opening marker there is a closing one, though not at once |
| `ScriptText.MatchTakesFirst` | internal/automation/manager.go:151-154 | the text taken is the one between the first opening marker and the first closing one behind it |
| `ScriptTheorems.RoundTrip` | internal/automation/manager.go:129-216 | it does when no XML line starts with the closing marker and the opening marker is nowhere in the code |
| `ScriptTheorems.NormalDropsOnlyBlanks` | internal/automation/manager.go:180-184 | the code comes back with a final newline and without leading blank lines, otherwise unchanged |
| `ScriptTheorems.SecondLoadIsIdentity` | internal/automation/manager.go:129-216 | a second save and load changes nothing more |
| `ScriptTheorems.ScannersDisagree` | internal/automation/manager.go:163-172 | XML whose first line starts with the closing marker: the regular expression keeps it, the scanner takes the marker for code |

## Left out

- Serial port, USB re-enumeration, back-off, logging and real time-outs: the port is a byte sequence, a time-out is a step
  that can happen at any moment, and clock readings are parameters.
- The meaning of floating-point numbers: floats are bit patterns, and conversions between them are parameters.
- BoltDB and encoding/json: the bucket is a map whose methods are transactions, and the metadata of a script is printed and
  parsed by parameters that are assumed to invert each other on one line.
- Text is a sequence of characters; bytes that are not valid UTF-8 in a script file are not modelled.
- Cluster tables, device definitions, `DeviceDB` and `Registry`: data.
- The MQTT bridge, Home Assistant discovery, the Lua engine, Telegram, HTTP handlers and the user interface.
- `FormNetwork`, `Init` and the other command scripts, and building and reading the payloads of single commands.
- A Close that overlaps a reset, and a request that outlives a reset and then deletes an entry of the next epoch by number,
  in `Requests`; in `Lifecycle` such deletes may happen at any time.
- The 64-bit generation counter of interviews and the 32-bit counters of sequence numbers are unbounded; the 8-bit numbers
  cut from the latter wrap.
- Interviews.Registry.TakeGen: the increment and the making of the context are one step; nothing shared is read between.
- Debounce.StartsThreeSecondsApart: the time of a start is the reading recorded in the cache, not when the goroutine runs.
- AddrIndex.DeviceManager.RemoveDevice: the leave request sent to the device, whose outcome changes nothing else.
- DeviceStore.BoltStore.UpdateDevice: the error of an update's own function is one error, whatever it says.
- Interviews.Registry.CancelAll: waiting for the goroutines is not part of the method; `Interviews.WaitLeavesNone` says what
  holds when the wait returns.
- RawReader.ReadLoop: a read error ends the stream; backing off and reading on, sending acknowledgements and handing frames
  to their handlers are not part of it.
- LinkAck.Link.WriteWithAck: what the port, the timer, the context and the read loop do is a parameter, one entry for each
  attempt.
- LinkAck.SuccessIsOwnAck: one write at a time; two goroutines writing at once share one channel of acknowledgements.
- WireTheorem.WireRoundTrip: damage to a frame's signature or size field is left to `RawReader.FalseSignatureEatsFrame` and
  `ZbossIntegrity.ByteRejected`, because the reader may then cut the stream elsewhere.
- Lifecycle.Connection.CloseDone: waiting for the read loop is the condition of a step, not a method.

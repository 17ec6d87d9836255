# Click: a verified model of the messaging library

Click is a small protocol between a controller and a simulation: seven protobuf message classes, builders that
assemble them, readers that take them apart, and a request/reply exchange over ZeroMQ. This project models the
C++ library under `cpp-src/` and proves properties of it. `dafny verify dfyconfig.toml` checks everything.

## What is modelled

**The wire codec.** The generated classes of `Messaging.pb.cc` are one template applied to lists of numbered
fields. `Schema` holds the field table of each class, including nested classes and map entries, and
`Schema.TableMatchesCaseTags` proves the table equal to the `case` tag constants of the generated parse loops.
`Codec` states parsing (one tag-and-value record at a time), serialization and merging over that table.
`Wire` and `Utf8` write out the library routines underneath: varints, tags, length-delimited values, groups
(skipped as unknown fields) and UTF-8 (section 4 of RFC 3629). They follow the Protocol Buffers Encoding guide,
sections "Base 128 Varints", "Message Structure", "Packed Repeated Fields", "Last One Wins", "Maps" and "Field
Order". Doubles are their eight bytes; strings are bytes. The iteration order of every map is a parameter `ord`, and
each theorem holds for all of them. A length stays below 2 GiB and a parse nests at most 100 deep, as in the library.
Three reference definitions stand beside the codec. `WireLaws` and `FieldLaws` say what any bytes are read as: the
number that a varint spells, the last value of a single field, the joined pieces of a repeated one, the last entry of
a map key, the last member of a oneof. `SensorBytes`, `ControlBytes` and `HandshakeBytes` write the messages out by
hand, tag byte by tag byte as `protobuf-src/Messaging.proto` numbers them, and are proved equal to the serializer. And
`Utf8.EncodeAll` spells texts from Unicode scalar values, which `Utf8.ValidIffText` proves to be all that the parser
accepts.

`MessageObject` and `SensorOneof` give the codec its imperative form: a message object whose parse loop advances a
pointer and batches elements with `ExpectTag`, whose size pass fills caches, whose serializer trusts those caches;
and the oneof of `SensorMessage.Sensor`, one storage cell with owned pointers.

A message object is a map from field numbers to values that differ from their default, plus its unknown records.
`Codec.Ok` is its well-formedness: values of the field's type, valid UTF-8, at most one oneof member, nesting
within budget, and only records in the unknown set that the class does not recognise. It is proved to hold of
everything parsed and of everything the builders make, and `ParseLaws.RoundTripsIffOk` shows it to be exactly the
condition under which a message comes back when written and parsed.

**Dispatch.** `MessageSerializer::fromBytes` reads the same bytes twice: as the envelope `Message`, and as the class
its `messageType` names. Field 2 means different things to the two. It goes on whether or not a parse succeeds, so
`PartialParse` says what a failed parse leaves: everything up to the record it cannot read or refuses. Of such a
message the model has the class and the type it reports. The library may read a tag or a type past the end of the
buffer before it notices; what it finds there is a parameter `past`, and each theorem holds for all of it.

**Builders and readers.** The three builders are classes with nodes on the heap and cursors into them. Each method is
proved to be one step of a pure fold of map updates, and `Replay` makes any chain of calls on a new builder and ends
with the message of the fold in its nodes. `EndToEnd` goes on from the builder object to a message object, its bytes,
the decoder and what every reader returns.

**Request and reply.** Server and client over REP and REQ sockets (ZeroMQ RFC 28) and an in-order lossless network,
as a step system in which any operation may fail or be tried out of turn; and the loop of the demo server, for every
sequence of requests, well formed or not, with the bytes of every reply.

## Findings

- A name selected twice escapes the staged control interfaces
  (`cpp-src/click/include/click/ControlMessageBuilder.h:72-94`, `cpp-src/click/src/ControlMessageBuilder.cpp:14-21`):
  an object can then have two non-empty vectors although `protobuf-src/Messaging.proto:128-132` calls them mutually
  exclusive. `ControlBuilder.ReselectionBreaksExclusivity` is the chain; `ControlBuilder.ExclusiveIff` and
  `ControlBuilder.AssignKeepsExclusiveIff` are the exact conditions.
- `fromBytes` ignores whether its parses succeed (`cpp-src/click/src/MessageSerializer.cpp:35-93`), so bytes that fail
  to parse still give a message, and it may report a type that is not that of its class:
  `Dispatch.PartialMayDisagree` has such bytes, `Dispatch.DispatchByLastType` says which class and type come out, and
  `Dispatch.ReportsItsClassIff` is the exact condition.
- `withSimulatedTime` returns the interface of an object without selecting one
  (`cpp-src/click/include/click/SensorMessageBuilder.h:26-27`), so a chain that type-checks may use an unset cursor:
  `SensorBuilder.StagedRunsIffObjectFirst` is the exact condition under which it does not.
- `sensorVec3` (`cpp-src/click/src/SensorMessage.cpp:133-150`) does not return velocities and `sensorDouble`
  (`cpp-src/click/src/SensorMessage.cpp:152-163`) does not return forces, which `sensor` does:
  `SensorMessages.SingleReadersAgree` says exactly which entries each returns.
- `objectRPY` and `objectPosition` (`cpp-src/click/src/SensorMessage.cpp:35-56`) return the first value ever added
  for the object, not the latest: `ObjectVectors.FirstVectorArrives`.
- Selecting a sensor again empties it in a sensor message (`cpp-src/click/src/SensorMessageBuilder.cpp:50-56`) and
  keeps its contents in a handshake (`cpp-src/click/src/HandshakeMessageBuilder.cpp:78-83`):
  `SensorFidelity.SensorHoldsPushes`, `HandshakeFidelity.MapsAre`.
- `README.md:44` of the repository pairs SensorRequestMessage with SensorMessage. The demo server answers it with an
  ErrorMessage, by the default branch of its switch (`cpp-src/democlient/src/demoserver.cpp:148-151`); the model
  follows the code (`DemoServer.ReplyByClass`).

## Model

| member | source | states |
|---|---|---|
| Wire.TakeEncodedVarint | cpp-src/click/src/Messaging.pb.cc:902-925 | Reading a varint undoes writing it and leaves the bytes that follow, within any length limit that fits it. |
| Wire.SignExtendSurvives | cpp-src/click/src/Messaging.pb.cc:952-962 | A negative enum, written as a ten-byte varint, is the same int32 when read. |
| Wire.TakePutRecord | cpp-src/click/src/Messaging.pb.cc:902-937 | Reading one record undoes writing it, groups included, and consumes exactly its bytes whatever follows. |
| Wire.TokenisePut | cpp-src/click/src/Messaging.pb.cc:964-968 | Written records followed by any bytes read as those records followed by what the bytes read as. |
| Wire.TokensFit | cpp-src/click/src/Messaging.pb.cc:926-937 | Every record read from any bytes has values in range and nests within the budget of the parse. |
| Wire.RecordExtends | cpp-src/click/src/Messaging.pb.cc:902-937 | A record read from some bytes is the same, and ends at the same place, whatever bytes follow. |
| WireLaws.VarintReads | cpp-src/click/src/Messaging.pb.cc:902-925 | On any bytes: a varint is read up to its first byte below 128, if that is within the limit, and its value is the number those bytes spell in base 128, lowest digit first. |
| WireLaws.VarintNeedsAnEnd | cpp-src/click/src/Messaging.pb.cc:902-925 | Bytes without such an end are refused. |
| WireLaws.VarintSpells | cpp-src/click/src/Messaging.pb.cc:952-962 | What is written spells its number with no digit to spare. |
| WireLaws.FieldAndTagRead | cpp-src/click/src/Messaging.pb.cc:902-925 | A varint field of at most ten bytes is cut to 64 bits, a tag of at most five to 32; anything longer is refused. |
| WireLaws.LengthRead | cpp-src/click/src/Messaging.pb.cc:3916-3922 | A length of at most five bytes and below 2 GiB is followed by that many bytes, or refused. |
| WireLaws.NoEndNoRead | cpp-src/click/src/Messaging.pb.cc:902-925 | Where a varint has no end, neither field nor tag nor length is read. |
| WireLaws.WireTypes | cpp-src/click/src/Messaging.pb.cc:926-937 | The wire types by their numbers; 4, 6 and 7 are refused where a record is expected. |
| WireLaws.GroupEnds | cpp-src/click/src/Messaging.pb.cc:926-937 | A group ends at an end tag of its own number; another's is refused. |
| WireLaws.GroupsNest | cpp-src/click/src/Messaging.pb.cc:926-937 | Groups one in the other are read if and only if the budget allows as many. |
| Schema.TableMatchesCaseTags | cpp-src/click/src/Messaging.pb.cc:1774-1887 | For every class, number and wire type: the field table recognises a record if and only if its tag is a `case` of that class's parse loop. |
| Utf8.ValidIffText | cpp-src/click/src/Messaging.pb.cc:5688-5696 | The strings accepted are exactly the encoded sequences of Unicode scalar values, one to four bytes each. |
| Utf8.TextIsUnambiguous | cpp-src/click/src/Messaging.pb.cc:5688-5696 | Different texts are different bytes. |
| RoundTrip.ParseSerialized | cpp-src/click/src/Messaging.pb.cc:3886-4117 | Parsing written bytes on top of any object merges the written message into it, for every class, depth and map order. |
| RoundTrip.EntryRoundTrip | cpp-src/click/src/Messaging.pb.cc:1921-1970 | A map entry comes back with its key and value even where they are defaults. |
| RoundTrip.ParseUndoesSerialize | cpp-src/click/src/Messaging.pb.cc:4613-4783 | Parsing undoes serializing: presence, oneof case, maps and unknown fields come back. |
| RoundTrip.ParseOfConcatenationMerges | cpp-src/click/src/Messaging.pb.cc:4223-4297 | Parsing two serialized messages back to back gives the merge of the two. |
| RoundTrip.CopyByMerge | cpp-src/click/src/Messaging.pb.cc:2129-2134 | Merging a message into an empty object copies it, valid strings or not. |
| ParseLaws.ParseKeepsOk | cpp-src/click/src/Messaging.pb.cc:1875-1887 | Parsing any bytes keeps a message well formed; the unknown set holds only records the class does not recognise. |
| ParseLaws.ParsedEntryOk | cpp-src/click/src/Messaging.pb.cc:1822-1831 | A parsed map entry has a valid key and a value of the map's type, whatever the bytes left out. |
| ParseLaws.ReparseOfParsed | cpp-src/click/src/Messaging.pb.cc:3999-4010 | Normal form: what any accepted bytes parse to is well formed and survives being written and parsed again. |
| ParseLaws.RoundTripsIffOk | cpp-src/click/src/Messaging.pb.cc:5663-5756 | A message comes back when written and parsed if and only if it is well formed. |
| RecordOrder.AcceptanceOfBytes | cpp-src/click/src/Messaging.pb.cc:1774-1887 | Whether bytes are accepted does not depend on what the object held before. |
| RecordOrder.OrderBetweenFieldsIsFree | cpp-src/click/src/Messaging.pb.cc:4752-4775 | Record sequences that agree on the order within each field and within the oneof are accepted alike and give the same known fields, and the same message if the unknown records agree too. |
| RecordOrder.BytesInAnyFieldOrder | cpp-src/click/src/Messaging.pb.cc:4613-4705 | The same, all three parts, for any two byte strings, canonical or not, that hold such records. |
| RecordOrder.PiecesCommute | cpp-src/click/src/Messaging.pb.cc:4613-4705 | Two byte strings whose records share no known field may be concatenated in either order. |
| RecordOrder.ParseGoesOn | cpp-src/click/src/Messaging.pb.cc:3886-4010 | After any accepted bytes, more bytes are parsed on top of the message they gave. |
| RecordOrder.DoublePiecesJoin | cpp-src/click/src/Messaging.pb.cc:3400-3408 | Packed and unpacked pieces of a repeated double, well formed or not, act as their concatenation. |
| RecordOrder.IntPiecesJoin | cpp-src/click/src/Messaging.pb.cc:1515-1525 | The same for a repeated enum. |
| RecordOrder.DoubleChunkingIsInvisible | cpp-src/click/src/Messaging.pb.cc:2819-2874 | However a list of doubles is cut into pieces, it parses as the one packed run the serializer writes. |
| RecordOrder.IntChunkingIsInvisible | cpp-src/click/src/Messaging.pb.cc:1796-1806 | The same for a list of enums. |
| RecordOrder.DoubleBytesChunked | cpp-src/click/src/Messaging.pb.cc:2819-2874 | The same from bytes to bytes: any encoding of the pieces parses like the serializer's packed run. |
| RecordOrder.IntBytesChunked | cpp-src/click/src/Messaging.pb.cc:1796-1806 | The same for enums. |
| FieldLaws.LastOneWins | cpp-src/click/src/Messaging.pb.cc:5663-5705 | A single value is that of the last record of its field, a default included; without such a record it stays. |
| FieldLaws.StringsAddUp | cpp-src/click/src/Messaging.pb.cc:1781-1790 | Repeated strings are added one by one, in order, to those there were. |
| FieldLaws.MessagesAddUp | cpp-src/click/src/Messaging.pb.cc:4660-4670 | So are repeated messages, each parsed on its own. |
| FieldLaws.PiecesAddUp | cpp-src/click/src/Messaging.pb.cc:3400-3408 | Packed and unpacked pieces of repeated doubles and enums, among records of any other fields, are joined to what there was. |
| FieldLaws.NestedMessagesMerge | cpp-src/click/src/Messaging.pb.cc:5228-5234 | Several records of one nested message act as one with their bytes joined, on top of what there was. |
| FieldLaws.LastEntryStays | cpp-src/click/src/Messaging.pb.cc:5214-5227 | Under each key of a map is the value of the last entry with that key. |
| FieldLaws.LastMemberWins | cpp-src/click/src/Messaging.pb.cc:3886-4010 | A oneof holds exactly its last member, with the value of that record; a message-valued one is what its records since another member parse to. |
| FieldLaws.UnknownAddUp | cpp-src/click/src/Messaging.pb.cc:1875-1887 | Unknown records are kept in order. |
| FieldLaws.PackedEnumsRead | cpp-src/click/src/Messaging.pb.cc:1515-1525 | A packed run of enums is varints of at most ten bytes, end to end. |
| FieldLaws.PackedEnumsNeedAnEnd | cpp-src/click/src/Messaging.pb.cc:1515-1525 | A packed run in which a varint has no end is refused; an empty one holds nothing. |
| FieldLaws.PackedDoublesRead | cpp-src/click/src/Messaging.pb.cc:3400-3408 | A packed run of doubles is accepted if and only if eight divides its length, and the values joined are its bytes. |
| FieldLaws.NestsAHundredDeep | cpp-src/click/src/Messaging.pb.cc:926-937 | A parse nests a hundred deep and no deeper. |
| FieldLaws.NestingTakesOneLevel | cpp-src/click/src/Messaging.pb.cc:3916-3922 | Every nested message and map entry takes one level of the budget. |
| FieldLaws.ForceSensorsAddUp | protobuf-src/Messaging.proto:204 | Vectors of the field that no builder sets are kept one by one. |
| PartialParse.AcceptedStopsAtEnd | cpp-src/click/src/Messaging.pb.cc:900-944 | A parse is accepted if and only if it stops at the end of its bytes, with the message it has by then. |
| PartialParse.StopsAtFirstRefused | cpp-src/click/src/Messaging.pb.cc:5198-5255 | Whatever the object held, a parse applies exactly the readable records before the first one the class refuses, and stops there or where no record can be read. |
| PartialParse.ReadableIsWithin | cpp-src/click/src/Messaging.pb.cc:900-925 | A parse that stops at a record it can read has not read a tag or a type past the end. |
| PartialParse.OffTheEndIff | cpp-src/click/src/Messaging.pb.cc:900-925 | A parse may have read past the end exactly if it stops at a tag, or at the value of an int in field 1, that cannot be read but could be if more bytes followed. |
| PartialParse.ParseStaysWithin | cpp-src/click/src/Messaging.pb.cc:3916-3922 | Containment: reading records freely in a longer buffer and checking the limit after each gives the parse of the bytes before the limit alone. |
| Dispatch.EnvelopeIsSound | cpp-src/click/src/Messaging.pb.cc:900-944 | On any bytes one of the seven classes accepts, the envelope is accepted and reads the same messageType. |
| Dispatch.DispatchIsSound | cpp-src/click/src/MessageSerializer.cpp:35-93 | On any bytes: a message decoded in full has the type of its class and is the parse by that class; bytes a class accepts with its own type are decoded as it. |
| Dispatch.DispatchByLastType | cpp-src/click/src/MessageSerializer.cpp:35-93 | On any bytes, parsed in full or not, that are not cut off inside a tag or a type: the class is that of the last messageType among all readable records; fromBytes throws if and only if that names no class; and the message reports the last messageType before the first record its class refuses. |
| Dispatch.PartialMayDisagree | cpp-src/click/src/MessageSerializer.cpp:83-89 | Bytes that come back as a sensor message whose messageType says control message. |
| Dispatch.ReportsItsClassIff | cpp-src/click/src/MessageSerializer.cpp:35-93 | On bytes not cut off inside a tag or a type whose last messageType selects a class: the message returned is of that class, and reports it if and only if the last messageType before the first record the class refuses is the same. |
| Dispatch.CutOffIsOpen | cpp-src/click/src/MessageSerializer.cpp:35-93 | On bytes that are cut off inside a tag or a type, the class is the one named by whatever is found past the end, and any can be. |
| Dispatch.ClassOfInvertsTag | protobuf-src/Messaging.proto:5-13 | Dispatch selects a class if and only if the type is the one that class's builder sets. |
| Dispatch.FromBytesUndoesSerialize | cpp-src/click/src/MessageSerializer.cpp:14-93 | What is sent is what fromBytes returns, class and message, if and only if the message is well formed and its messageType names its class. |
| SmallMessages.TypeSelectsClass | protobuf-src/Messaging.proto:5-13 | The numbers of the seven types: bytes that hold a type and nothing else are decoded as its class, and any other type is refused; no bytes at all are a handshake init. |
| SmallMessages.SmallMessagesArrive | cpp-src/click/src/HandshakeInitMessageBuilder.cpp:18-24 | The handshake init, reset and sensor request of their builders, byte for byte, and what arrives. |
| SmallMessages.ErrorMessageBuilder.constructor | cpp-src/click/src/ErrorMessageBuilder.cpp:23-28 | An error message of type 5 without text. |
| SmallMessages.ErrorMessageBuilder.WithMessage | cpp-src/click/src/ErrorMessageBuilder.cpp:13-16 | The last text given is the one that stays. |
| SmallMessages.ErrorArrives | cpp-src/click/src/ErrorMessage.cpp:17-25 | An error message, byte for byte: it reads back as type 5 with its text, and arrives if and only if the text is UTF-8. |
| Texts.SensorMessageArrivesIffTexts | cpp-src/click/src/Messaging.pb.cc:5277-5280 | A sensor message arrives if and only if every name of an object or a sensor is an encoded text. |
| Texts.ControlMessageArrivesIffTexts | cpp-src/click/src/Messaging.pb.cc:3161-3205 | A control message arrives if and only if every name of an object or an event is. |
| Texts.HandshakeArrivesIffTexts | cpp-src/click/src/Messaging.pb.cc:2460-2530 | A handshake arrives if and only if every name in it is. |
| Texts.EuroSignArrives | cpp-src/click/src/MessageSerializer.cpp:83-89 | A sensor message with an object named by the euro sign, byte for byte, arrives. |
| SensorBytes.SensorMessageWritten | protobuf-src/Messaging.proto:163-217 | A sensor message goes out as the tags, lengths and values that Messaging.proto prescribes, for every map order. |
| SensorBytes.ReadingWritten | protobuf-src/Messaging.proto:177-193 | One reading is its tag byte, literally, and its value, zero included. |
| ControlBytes.ControlMessageWritten | protobuf-src/Messaging.proto:120-137 | The same for a control message. |
| HandshakeBytes.HandshakeWritten | protobuf-src/Messaging.proto:80-107 | The same for a handshake, with type 1 and version 1. |
| HandshakeBytes.NewHandshakeWritten | cpp-src/click/src/HandshakeMessageBuilder.cpp:19-25 | The handshake built from no calls is the bytes 8, 1, 16, 1. |
| Transparency.EnvelopeRewrites | cpp-src/click/src/Messaging.pb.cc:946-971 | Reading a serialized message as the envelope succeeds, and writing the envelope puts the last type and id first and everything else after them in order; the bytes are the same exactly if that changes no record. |
| Transparency.EnvelopeIsTransparent | cpp-src/click/src/Messaging.pb.cc:900-971 | The bytes stay the same if and only if field 2 is an int of the class's own, or no unknown field passes for an id, or the only one that does is written as the envelope writes it and comes right after the type. |
| Serializer.Decode | cpp-src/click/src/MessageSerializer.cpp:35-93 | The two-pass decoding over message objects, which goes on whether or not a parse succeeds, computes the dispatch function. |
| SizeCache.SizeIsLength | cpp-src/click/src/Messaging.pb.cc:2008-2102 | The size pass predicts the length of the output, for every order of every map. |
| SizeCache.WriteFromCache | cpp-src/click/src/Messaging.pb.cc:1549-1598 | After the size pass, the serializer that takes every nested and packed length prefix from the caches writes the message: each prefix is the length of what it announces. |
| MessageObject.ExpectedTag | cpp-src/click/src/Messaging.pb.cc:1781-1790 | The one-byte ExpectTag test finds the same tag as full tag decoding. |
| MessageObject.MessageObject.ParseField | cpp-src/click/src/Messaging.pb.cc:5204-5234 | One `case` of the loop applies one record, fails exactly when the record is refused, consumes at least a byte, and leaves the type alone when it fails. |
| MessageObject.MessageObject.InternalParse | cpp-src/click/src/Messaging.pb.cc:4613-4705 | The loop with batched inner loops, left early or not, terminates and equals the parse that reads one tag and value at a time, on every input; a failing parse stops at the same record and leaves the same type. |
| MessageObject.MessageObject.ParseFromString | cpp-src/click/src/MessageSerializer.cpp:37-38 | Clears the object and parses; success exactly when the reference parse succeeds, and otherwise the type of the records before the failure. |
| MessageObject.MessageObject.Clear | cpp-src/click/src/Messaging.pb.cc:4598-4611 | Leaves an empty message. |
| MessageObject.MessageObject.MergeFrom | cpp-src/click/src/Messaging.pb.cc:4859-4874 | Field by field, the result is the merge of the codec; the source is unchanged. |
| MessageObject.MessageObject.CopyFrom | cpp-src/click/src/Messaging.pb.cc:4876-4881 | The copy equals its original, also when copied onto itself. |
| MessageObject.MessageObject.ByteSizeLong | cpp-src/click/src/Messaging.pb.cc:4785-4850 | Returns the size and leaves the right size in every cache at every depth. |
| MessageObject.MessageObject.InternalSerialize | cpp-src/click/src/Messaging.pb.cc:4714-4783 | Appends to the target what the cached sizes dictate. |
| MessageObject.MessageObject.SerializeAsString | cpp-src/click/src/MessageSerializer.cpp:14-17 | Size pass and serializer together give the serialized message, or nothing from 2 GiB on. |
| SensorOneof.LastEstablishedIsReadable | cpp-src/click/include/Messaging.pb.h:4906-5695 | Over every run of set, mutable, clear, merge, copy and parse operations, failed parses included: a case is readable if and only if some operation established it and none since replaced or cleared it. |
| SensorOneof.ReadsWhatWasSet | cpp-src/click/include/Messaging.pb.h:4906-5695 | Over every run: what is read of a case is the double, flag or vector it was last set, merged or copied to, or what an accepted parse gave it; a vector with everything that later merges of the same case appended. |
| SensorOneof.TagOffTheEndIff | cpp-src/click/src/Messaging.pb.cc:3886-4010 | The case left by a parse is unknown exactly if it stops at a tag that cannot be read but could be if more bytes followed. |
| SensorOneof.MergeReadingIsMerge | cpp-src/click/src/Messaging.pb.cc:4223-4297 | The oneof's own merge (same vector case appends, anything else replaces) is the codec's merge. |
| SensorOneof.ParseEstablishesLast | cpp-src/click/src/Messaging.pb.cc:3886-4010 | Parsing leaves exactly the case of the last recognised record set. |
| SensorOneof.CaseLeftIsLast | cpp-src/click/src/Messaging.pb.cc:3886-4010 | After any parse, accepted or not, the case left is that of the last tag some `case` took: that of the record the parse stopped at, or the last recognised one before it. |
| SensorOneof.SomethingIsLeft | cpp-src/click/src/Messaging.pb.cc:3886-4010 | What a parse may leave is never contradictory: for all bytes there is a reading it may leave. |
| SensorOneof.SensorObject.ClearValue | cpp-src/click/src/Messaging.pb.cc:3797-3873 | Clears the case and deletes the sub-message if the case had one; none is live afterwards. |
| SensorOneof.SensorObject.SetDouble | cpp-src/click/include/Messaging.pb.h:4927-4941 | Sets the case, deleting a sub-message of another case; no sub-message is live. |
| SensorOneof.SensorObject.SetActivated | cpp-src/click/include/Messaging.pb.h:5189-5203 | The same for the flag. |
| SensorOneof.SensorObject.Mutable | cpp-src/click/include/Messaging.pb.h:5079-5096 | The returned sub-message is the live one: the old one of the same case, or a new one after clearing. |
| SensorOneof.SensorObject.AssignVector | cpp-src/click/src/SensorMessageBuilder.cpp:86-91 | Replaces the three doubles of a vector case, establishing it first if another was set. |
| SensorOneof.SensorObject.ClearMember | cpp-src/click/include/Messaging.pb.h:5029-5036 | Clears and deletes if that case is set, and otherwise does nothing. |
| SensorOneof.SensorObject.GetDouble | cpp-src/click/include/Messaging.pb.h:4921-4937 | Where the case matches, the double that the object holds; zero elsewhere. |
| SensorOneof.SensorObject.GetActivated | cpp-src/click/include/Messaging.pb.h:5183-5199 | Where the case matches, the flag that the object holds; false elsewhere. |
| SensorOneof.SensorObject.GetVector | cpp-src/click/include/Messaging.pb.h:5051-5059 | Where the case matches, the list that the object holds; the empty default elsewhere. |
| SensorOneof.SensorObject.MergeFrom | cpp-src/click/src/Messaging.pb.cc:4223-4297 | The merge of the two readings, with exactly the right sub-message live. |
| SensorOneof.SensorObject.CopyFrom | cpp-src/click/src/Messaging.pb.cc:4299-4304 | Takes over the other's reading, also when copied onto itself. |
| SensorOneof.SensorObject.ParseFrom | cpp-src/click/src/Messaging.pb.cc:3886-4010 | The record loop: success exactly when the bytes are accepted, and then the getters show what they hold; accepted or not, the case is the one the last tag established, and exactly the sub-message of a vector case is live, through every switch of case. |
| SensorOneof.SensorObject.ParseMember | cpp-src/click/src/Messaging.pb.cc:3892-3997 | One `case`: the member is set as soon as its tag is read; the result is that of applying the record, and a malformed value fails with the case established. |
| SensorOneof.SensorObject.ParseVector | cpp-src/click/src/Messaging.pb.cc:3916-3922 | The nested parse runs on the live sub-message, so a repeated case appends and another case replaces; its unknown fields do not matter to the doubles. |
| SensorMessages.MessageOk | cpp-src/click/src/SensorMessageBuilder.cpp:10-56 | Whatever the sensor builder holds is a well-formed message. |
| SensorMessages.DecodeSensor | cpp-src/click/src/SensorMessage.cpp:68-131 | The loop writing through an iterator returns the decoding of every entry in order, or the failure of the first entry that has one. |
| SensorMessages.DecodeOneMember | cpp-src/click/src/SensorMessage.cpp:74-127 | Whatever order the `has_` chain tests in, it finds the member that is set and tags it with its own type. |
| SensorMessages.DecodePushes | cpp-src/click/src/SensorMessage.cpp:68-131 | Decoding the list of any pushed readings gives those readings with their types; no vector is too short for copy_n. |
| SensorMessages.ListOfMessage | cpp-src/click/src/SensorMessage.cpp:70-72 | The list found under an object and a sensor name is the one the message holds there, and lookup fails exactly when it holds none. |
| SensorMessages.SingleReadersAgree | cpp-src/click/src/SensorMessage.cpp:133-172 | Where the list decodes, each single-entry reader returns a value at an index if and only if the list has it there and it is of the reader's kind, velocities and force1d excepted; outside the list it fails. |
| SensorMessages.SensorReadsOrFails | cpp-src/click/src/SensorMessage.cpp:68-131 | Every answer of `sensor`: out of range exactly for names not there, the whole list if every reading decodes, and otherwise the failure of the first that does not: nothing set, or a vector shorter than three. |
| SensorMessages.DoublesHaveTheirTypes | cpp-src/click/src/SensorMessage.cpp:78-117 | The type given to each double and to the flag, by name. |
| SensorMessages.VectorsHaveTheirTypes | cpp-src/click/src/SensorMessage.cpp:74-125 | The type given to each vector, by name. |
| SensorMessages.SingleReaderReads | cpp-src/click/src/SensorMessage.cpp:133-172 | What each single-entry reader makes of any reading: out of range for a vector shorter than three, an exception for another kind. |
| SensorBuilder.StagedRunsIffObjectFirst | cpp-src/click/include/click/SensorMessageBuilder.h:18-63 | A chain that type-checks runs on set cursors if and only if it selects an object before the first call that needs one. |
| SensorBuilder.TypeChecksIff | cpp-src/click/include/click/SensorMessageBuilder.h:18-63 | Exactly which chains of calls type-check: every call is one that the interface returned by the call before it offers. |
| SensorBuilder.SensorMessageBuilder.constructor | cpp-src/click/src/SensorMessageBuilder.cpp:10-13 | An empty message, no cursor and no nodes. |
| SensorBuilder.SensorMessageBuilder.Contents | cpp-src/click/src/SensorMessageBuilder.cpp:161-164 | What the nodes on the heap hold is the message of the fold. |
| SensorBuilder.SensorMessageBuilder.Object | cpp-src/click/src/SensorMessageBuilder.cpp:15-22 | Selects an object, creating it only if the name is new; any node it adds is freshly allocated. |
| SensorBuilder.SensorMessageBuilder.WithSimulatedTime | cpp-src/click/src/SensorMessageBuilder.cpp:24-28 | Sets the time and nothing else. |
| SensorBuilder.SensorMessageBuilder.WithAngles | cpp-src/click/src/SensorMessageBuilder.cpp:30-34 | Replaces the list of the object under the cursor; every other object is untouched. |
| SensorBuilder.SensorMessageBuilder.WithAngularVelocities | cpp-src/click/src/SensorMessageBuilder.cpp:149-153 | The same for angular velocities. |
| SensorBuilder.SensorMessageBuilder.WithTorques | cpp-src/click/src/SensorMessageBuilder.cpp:155-159 | The same for torques. |
| SensorBuilder.SensorMessageBuilder.WithObjectSensor | cpp-src/click/src/SensorMessageBuilder.cpp:36-48 | Appends to the object sensors of the object under the cursor. |
| SensorBuilder.SensorMessageBuilder.WithPosition | cpp-src/click/src/SensorMessageBuilder.cpp:36-41 | Appends a position with its three entries to the object sensors. |
| SensorBuilder.SensorMessageBuilder.WithRPY | cpp-src/click/src/SensorMessageBuilder.cpp:43-48 | The same for an orientation. |
| SensorBuilder.SensorMessageBuilder.WithSensor | cpp-src/click/src/SensorMessageBuilder.cpp:50-56 | The selected sensor is empty even if it existed; the cursor points at it; any node it adds is freshly allocated. |
| SensorBuilder.SensorMessageBuilder.WithReading | cpp-src/click/src/SensorMessageBuilder.cpp:58-147 | Appends to the sensor under the cursor, wherever the object cursor has moved since. |
| SensorBuilder.SensorMessageBuilder.WithAngle | cpp-src/click/src/SensorMessageBuilder.cpp:58-63 | Pushes an angle to the sensor under the cursor. |
| SensorBuilder.SensorMessageBuilder.WithAngularVelocity1d | cpp-src/click/src/SensorMessageBuilder.cpp:65-70 | Pushes a 1D angular velocity to the sensor under the cursor. |
| SensorBuilder.SensorMessageBuilder.WithTorque1d | cpp-src/click/src/SensorMessageBuilder.cpp:72-77 | Pushes a 1D torque to the sensor under the cursor. |
| SensorBuilder.SensorMessageBuilder.WithForce1d | cpp-src/click/src/SensorMessageBuilder.cpp:79-84 | Pushes a 1D force to the sensor under the cursor. |
| SensorBuilder.SensorMessageBuilder.WithPositionReading | cpp-src/click/src/SensorMessageBuilder.cpp:86-91 | Pushes a position (`withPosition_`) to the sensor under the cursor. |
| SensorBuilder.SensorMessageBuilder.WithRPYReading | cpp-src/click/src/SensorMessageBuilder.cpp:93-98 | Pushes an orientation (`withRPY_`) to the sensor under the cursor. |
| SensorBuilder.SensorMessageBuilder.WithActivated | cpp-src/click/src/SensorMessageBuilder.cpp:100-105 | Pushes a flag to the sensor under the cursor. |
| SensorBuilder.SensorMessageBuilder.WithAcceleration3d | cpp-src/click/src/SensorMessageBuilder.cpp:107-112 | Pushes a 3D acceleration to the sensor under the cursor. |
| SensorBuilder.SensorMessageBuilder.WithForce3d | cpp-src/click/src/SensorMessageBuilder.cpp:114-119 | Pushes a 3D force to the sensor under the cursor. |
| SensorBuilder.SensorMessageBuilder.WithTorque3d | cpp-src/click/src/SensorMessageBuilder.cpp:121-126 | Pushes a 3D torque to the sensor under the cursor. |
| SensorBuilder.SensorMessageBuilder.WithAngularAcceleration3d | cpp-src/click/src/SensorMessageBuilder.cpp:128-133 | Pushes a 3D angular acceleration to the sensor under the cursor. |
| SensorBuilder.SensorMessageBuilder.WithVelocity3d | cpp-src/click/src/SensorMessageBuilder.cpp:135-140 | Pushes a 3D velocity to the sensor under the cursor. |
| SensorBuilder.SensorMessageBuilder.WithAngularVelocity3d | cpp-src/click/src/SensorMessageBuilder.cpp:142-147 | Pushes a 3D angular velocity to the sensor under the cursor. |
| SensorBuilder.SensorMessageBuilder.Perform | cpp-src/click/src/SensorMessageBuilder.cpp:15-159 | Any call, made by its own method, is one step of the fold. |
| SensorBuilder.Replay | cpp-src/click/src/SensorMessageBuilder.cpp:15-171 | Builder refinement: any chain of calls that uses only set cursors, made on a new builder, leaves in its nodes the message of the fold. |
| SensorFidelity.SensorHoldsPushes | cpp-src/click/src/SensorMessageBuilder.cpp:50-147 | After the last selection of a sensor, it holds exactly what was pushed before any other sensor was selected. |
| SensorFidelity.SensorsArriveAsPushed | cpp-src/click/src/SensorMessage.cpp:68-131 | Builder calls, bytes, fromBytes, reader: the reader returns what was pushed after the last selection, in order and with types, for every chain and map order. |
| SensorFidelity.UnselectedIsOutOfRange | cpp-src/click/src/SensorMessage.cpp:68-70 | A sensor that no call selected is out of range. |
| SensorFidelity.ListsReadAsAssigned | cpp-src/click/src/SensorMessage.cpp:12-23 | The angle, velocity and torque lists and the time read are those last assigned; reading fails exactly for names never selected. |
| ObjectVectors.FindVector | cpp-src/click/src/SensorMessage.cpp:35-56 | The search loop returns the first object sensor of the case, and fails where there is none or no such object. |
| ObjectVectors.FirstVectorArrives | cpp-src/click/src/SensorMessage.cpp:35-56 | From builder calls to the reader: the position or orientation read is the first one ever added for that object. |
| ControlBuilder.StagesSetTheCursor | cpp-src/click/include/click/ControlMessageBuilder.h:17-94 | Every chain that type-checks uses only cursors that are set. |
| ControlBuilder.TypeChecksIff | cpp-src/click/include/click/ControlMessageBuilder.h:17-94 | Exactly which chains of calls type-check. |
| ControlBuilder.HoldsLastAssigned | cpp-src/click/src/ControlMessageBuilder.cpp:14-41 | Each vector of each object is the one last assigned to it, empty if none was. |
| ControlBuilder.SelectedNames | cpp-src/click/src/ControlMessageBuilder.cpp:14-21 | The message holds exactly the objects that were selected. |
| ControlBuilder.ExclusiveIff | protobuf-src/Messaging.proto:128-132 | An object has at most one non-empty vector if and only if at most one of its vectors was last assigned a non-empty value. |
| ControlBuilder.AssignKeepsExclusiveIff | cpp-src/click/src/ControlMessageBuilder.cpp:22-41 | One assignment keeps an object exclusive if and only if it is empty or the other three vectors are. |
| ControlBuilder.StagedChainsAreExclusive | cpp-src/click/include/click/ControlMessageBuilder.h:17-94 | Chains that type-check and select each name at most once build only exclusive objects. |
| ControlBuilder.ReselectionBreaksExclusivity | cpp-src/click/include/click/ControlMessageBuilder.h:72-94 | A chain that type-checks, selects a name twice and is not exclusive. |
| ControlBuilder.ControlMessageBuilder.constructor | cpp-src/click/src/ControlMessageBuilder.cpp:9-12 | An empty message, no cursor and no nodes. |
| ControlBuilder.ControlMessageBuilder.Contents | cpp-src/click/src/ControlMessageBuilder.cpp:47-50 | What the nodes on the heap hold is the message of the fold. |
| ControlBuilder.ControlMessageBuilder.Object | cpp-src/click/src/ControlMessageBuilder.cpp:14-21 | Selects an object, keeping its contents if the name exists; any node it adds is freshly allocated. |
| ControlBuilder.ControlMessageBuilder.WithAngles | cpp-src/click/src/ControlMessageBuilder.cpp:22-26 | Replaces that vector of the object under the cursor and nothing else. |
| ControlBuilder.ControlMessageBuilder.WithValues | cpp-src/click/src/ControlMessageBuilder.cpp:27-31 | The same for values. |
| ControlBuilder.ControlMessageBuilder.WithAngularVelocities | cpp-src/click/src/ControlMessageBuilder.cpp:32-36 | The same for angular velocities. |
| ControlBuilder.ControlMessageBuilder.WithTorques | cpp-src/click/src/ControlMessageBuilder.cpp:37-41 | The same for torques. |
| ControlBuilder.ControlMessageBuilder.WithControlEvent | cpp-src/click/src/ControlMessageBuilder.cpp:42-46 | Sets one event of the object under the cursor. |
| ControlBuilder.ControlMessageBuilder.Perform | cpp-src/click/src/ControlMessageBuilder.cpp:14-46 | Any call, made by its own method, is one step of the fold. |
| ControlBuilder.Replay | cpp-src/click/src/ControlMessageBuilder.cpp:14-57 | Builder refinement: any chain of calls that uses only set cursors, made on a new builder, leaves in its nodes the message of the fold. |
| ControlFidelity.HoldsLastEvent | cpp-src/click/src/ControlMessageBuilder.cpp:42-46 | Each event has the value last given to it, and exists exactly if one was given. |
| ControlFidelity.ControlsArriveAsAssigned | cpp-src/click/src/ControlMessage.cpp:20-42 | Staged calls, bytes, fromBytes, readers: each reader returns what was last assigned, and fails exactly for names never selected or events never set. |
| HandshakeBuilder.StagesSetTheCursors | cpp-src/click/include/click/HandshakeMessageBuilder.h:17-48 | Every chain that type-checks uses only cursors that are set, and types are appended only to a sensor of the robot under the cursor. |
| HandshakeBuilder.TypeChecksIff | cpp-src/click/include/click/HandshakeMessageBuilder.h:17-48 | Exactly which chains of calls type-check. |
| HandshakeBuilder.HandshakeMessageBuilder.constructor | cpp-src/click/src/HandshakeMessageBuilder.cpp:9-12 | An empty message, no cursors and no nodes. |
| HandshakeBuilder.HandshakeMessageBuilder.WithControlType | cpp-src/click/src/HandshakeMessageBuilder.cpp:34-39 | Sets the control type and nothing else. |
| HandshakeBuilder.HandshakeMessageBuilder.Contents | cpp-src/click/src/HandshakeMessageBuilder.cpp:14-17 | What the nodes on the heap hold is the message of the fold. |
| HandshakeBuilder.HandshakeMessageBuilder.WithSimulationSettings | cpp-src/click/src/HandshakeMessageBuilder.cpp:27-32 | Sets the time step and nothing else. |
| HandshakeBuilder.HandshakeMessageBuilder.WithRobot | cpp-src/click/src/HandshakeMessageBuilder.cpp:41-48 | Selects a robot, keeping its contents if the name exists; any node it adds is freshly allocated. |
| HandshakeBuilder.HandshakeMessageBuilder.WithControlsInOrder | cpp-src/click/src/HandshakeMessageBuilder.cpp:50-54 | Replaces the list of control names. |
| HandshakeBuilder.HandshakeMessageBuilder.WithControlTypesInOrder | cpp-src/click/src/HandshakeMessageBuilder.cpp:56-62 | The loop appends every item in order to what is already there. |
| HandshakeBuilder.HandshakeMessageBuilder.WithJointSensorsInOrder | cpp-src/click/src/HandshakeMessageBuilder.cpp:64-68 | Replaces the list of joint names. |
| HandshakeBuilder.HandshakeMessageBuilder.WithJointSensors | cpp-src/click/src/HandshakeMessageBuilder.cpp:70-76 | Appends in order. |
| HandshakeBuilder.HandshakeMessageBuilder.WithSensor | cpp-src/click/src/HandshakeMessageBuilder.cpp:78-83 | Selects a sensor of the robot under the cursor, keeping its types if it exists; any node it adds is freshly allocated. |
| HandshakeBuilder.HandshakeMessageBuilder.WithControlEvent | cpp-src/click/src/HandshakeMessageBuilder.cpp:85-90 | Sets the type of one event. |
| HandshakeBuilder.HandshakeMessageBuilder.WithObjectSensors | cpp-src/click/src/HandshakeMessageBuilder.cpp:92-98 | Appends in order. |
| HandshakeBuilder.HandshakeMessageBuilder.WithTypesInOrder | cpp-src/click/src/HandshakeMessageBuilder.cpp:100-106 | Appends in order to the sensor under the cursor; all other sensors and robots are untouched. |
| HandshakeBuilder.HandshakeMessageBuilder.Perform | cpp-src/click/src/HandshakeMessageBuilder.cpp:27-106 | Any call, made by its own method, is one step of the fold. |
| HandshakeBuilder.Replay | cpp-src/click/src/HandshakeMessageBuilder.cpp:19-106 | Builder refinement: any chain of calls that uses only set cursors, made on a new builder, leaves in its nodes the message of the fold. |
| HandshakeFidelity.ListsAre | cpp-src/click/src/HandshakeMessageBuilder.cpp:50-76 | A name list is the one assigned last; a type list is everything ever appended to it. |
| HandshakeFidelity.MapsAre | cpp-src/click/src/HandshakeMessageBuilder.cpp:78-106 | An event has the type last given to it; a sensor has everything ever appended to it, however often it was selected. |
| HandshakeFidelity.MessageOk | cpp-src/click/src/HandshakeMessageBuilder.cpp:19-25 | Whatever the handshake builder holds is a well-formed message. |
| HandshakeFidelity.HandshakeArrives | cpp-src/click/src/HandshakeMessage.cpp:8-79 | Staged calls, bytes, fromBytes, readers: the handshake received has type 1 and version 1, and every reader returns what the calls say, for every chain and map order; `objects` and `controlEvents` as sets of names. |
| EndToEnd.SendSensors | cpp-src/click/src/SensorMessage.cpp:12-183 | The calls are made on a builder object, what it holds is serialized by a message object and decoded: the message received is the one the builder holds, and sensor lists, positions, orientations, joint lists and time read as the calls say; sensors never selected are out of range. |
| EndToEnd.SendControls | cpp-src/click/src/ControlMessage.cpp:20-42 | The same from a control builder object used through its staged interfaces; and if each name is selected once, every object it holds is exclusive. |
| EndToEnd.SendHandshake | cpp-src/click/src/HandshakeMessage.cpp:8-79 | The same from a handshake builder object; the handshake received has type 1 and version 1. |
| ReqRep.TurnTaking | cpp-src/click/src/Server.cpp:43-80 | After any events, the server's flag says exactly that the REP socket owes a reply, which is exactly when receiving is out of turn and sending is not; and while the client waits exactly one of request in flight, reply owed and reply in flight holds, otherwise none. |
| ReqRep.RepliesAnswerRequests | cpp-src/click/src/Client.cpp:38-61 | The k-th reply the client receives is the one the server sent on receiving the client's k-th request. |
| ReqRep.ExchangeCompletes | cpp-src/click/src/Client.cpp:38-61 | No run gets stuck: from any reachable state a waiting client can be served. |
| ReqRep.MessagesArrive | cpp-src/click/src/Server.cpp:43-80 | A well-formed message sent as the k-th request or reply is decoded as itself at the other end. |
| ReqRep.ReceivesInOrder | cpp-src/click/src/Client.cpp:45-61 | After any events: a receive of either end throws exactly out of turn or on an error, comes back empty exactly if nothing waits, and otherwise takes the next message in the order of sending. |
| ReqRep.PollingIsInvisible | cpp-src/democlient/src/demoserver.cpp:43-60 | A receive that takes nothing may be left out of any run: however often it is polled, the message that comes later is the one that would have come. |
| ReqRep.Server.MustSend | cpp-src/click/src/Server.cpp:52-55 | True exactly when receiving would be refused. |
| ReqRep.Server.MustRecv | cpp-src/click/src/Server.cpp:57-60 | True exactly when sending would be refused. |
| ReqRep.Server.Send | cpp-src/click/src/Server.cpp:27-32 | Throws out of turn and on an error, and returns false where it would have to wait, with the socket as it was; otherwise hands over the bytes, and only then the flag drops. |
| ReqRep.Server.SendMessage | cpp-src/click/src/Server.cpp:43-50 | The same with the serialized message. |
| ReqRep.Server.Receive | cpp-src/click/src/Server.cpp:62-80 | Throws out of turn and on an error, and returns nothing where no request waits, with socket and flag as they were; otherwise takes the first request and decodes it, and the flag rises, also when decoding throws. |
| ReqRep.Client.SendMessage | cpp-src/click/src/Client.cpp:38-43 | Throws out of turn and on an error, and returns false where it would have to wait, with the socket as it was; otherwise hands over the serialized message. |
| ReqRep.Client.Receive | cpp-src/click/src/Client.cpp:45-61 | Throws out of turn and on an error, and returns nothing where no reply waits, with the socket as it was; otherwise takes the first reply and decodes it. |
| DemoServer.EachRequestGetsItsReply | cpp-src/democlient/src/demoserver.cpp:126-153 | For all requests, parsed in full or not: every reply sent answers the request at its own position; to type 0 it is the bytes 8, 1, 16, 1, decoded as a handshake with type and version 1 and nothing else; to type 2 the sensor message, decoded as itself; to any other type but 5 the bytes 8, 5, decoded as an error message with nothing else; sends are receives, less one if the run stopped after taking a request. |
| DemoServer.ReplyByClass | cpp-src/democlient/src/demoserver.cpp:131-151 | A request parsed in full reports type 0, 2 or 5 exactly if it is a handshake init, a control message or an error message. |
| DemoServer.HowItEnds | cpp-src/democlient/src/demoserver.cpp:126-153 | For all requests, parsed in full or not: the loop goes on if and only if every request is taken, has a known type other than error message and is replied to; otherwise it ends at the first that is not, by a failed receive, by returning exactly if that request reports an error message, or by an exception with the request unanswered. |
| DemoServer.ServeRepliesAreDemo | cpp-src/democlient/src/demoserver.cpp:131-151 | Each reply of the loop is, byte for byte, what the switch fixes for the request at its position. |
| DemoServer.ClientGetsDemoReply | cpp-src/click/src/Client.cpp:38-61 | Client, network and demo server together: the client's k-th reply is, in bytes and decoded field by field, what the switch fixes for the type its k-th request reports. |
| DemoServer.ServeRequests | cpp-src/democlient/src/demoserver.cpp:126-153 | The loop over the server object, with any receive or send failing: each reply sent is, byte for byte, the one for the request at its position, it goes on exactly while every request is answered, and the requests left and the ending are those of the reference run. |
| DemoSensors.DemoMessageIsBuilt | cpp-src/democlient/src/demoserver.cpp:86-104 | The calls of the demo build the message with the robot and the box. |
| DemoSensors.DemoChainTypeChecks | cpp-src/democlient/src/demoserver.cpp:86-104 | They type-check as a chain. |
| DemoSensors.DemoMessageCanBeSent | cpp-src/democlient/src/demoserver.cpp:137-142 | That message is well formed and short enough to be sent, in whatever order its maps are iterated. |
| DemoSensors.ClientReadsDemoSensors | cpp-src/democlient/src/demoserver.cpp:86-142 | A client whose request reports a control message reads in the reply the joint lists, the two sensor values, the position and the orientation that the demo put there. |

## Left out

- MessageObject.MessageObject.InternalParse: of a message whose parse failed, only the `messageType` is promised; what the failing record itself leaves in other fields depends on runtime routines that are not in the repository.
- Memory of nested messages in `MessageObject`: a nested message is a value of its parent there, so pointers into it (other than those of the builders and of the sensor oneof) and their lifetime are not captured.
- Calls through a cursor that is not set, which the C++ leaves undefined: `SensorBuilder.StagedRunsIffObjectFirst` says when a staged sensor chain has none; the staged control and handshake chains never do.
- `build()` moves the message out; using a builder afterwards is not modelled.
- SensorOneof.SensorObject.ParseFrom: after a rejected parse the value of the case left is not promised, nor the case itself where a tag was read past the end; unknown fields of the oneof object are left to the codec.
- Messages within 16 bytes of 2 GiB: the library refuses a length that close to the limit, the model only from 2 GiB on.
- Handing sub-messages of the oneof in and out (`release_`, `set_allocated_`).
- PartialParse.ParseStaysWithin: the limit is checked per record; nested parses are given their bytes cut to length, which this lemma justifies, and not one shared buffer with a stack of limits.
- DemoServer.ServeRequests: the requests wait at the socket from the start; polling is one receive that waits, which `ReqRep.PollingIsInvisible` justifies.
- `Server::receive_bytes` and `Client::receive(std::string&)`: the first changes the turn like `receive`; the bytes either copies are not modelled.
- Parsing from streams (`sensorMessageFromIStream`, `handshakeMessageFromIStream`), the casts between message classes, `debugString`.
- Sockets beyond the turn (contexts, endpoints, `terminate`, reconnection, more than one client) and the loss of messages.
- Arenas, reflection, descriptors, swapping, memory layout and static initialisation of the generated classes.
- The pause, reset and step rules of the simulation, the Python helpers and the demo clients.

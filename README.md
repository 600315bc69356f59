# A verified model of the CCSDS link servers and tools

This project models, in Dafny, the parts of the ground/on-board link software
that carry state or fix a format:

- **the USLP server's dispatcher** (`server-uslp/src/dispatcher.cpp`). It keeps
  the queue of uplink frames handed to the radio and a frame cookie counter
  that is never zero. It reacts to the radio's uplink-state reports with a
  timeout sweep, a state update and an admission decision. It answers uplink
  SDU requests and relays downlink SDUs. The USLP stack (CCSDS 732.1-B) is an
  external library: the model keeps only its interface. The set of output MAP
  channels is fixed at construction. What `push_sdu`, `peek_frame`,
  `pop_frame` and `push_frame` answer on a given call is a parameter
  (`StackAnswers`).
- **the bus wire codec** (`server-uslp/src/bus_io.cpp`, `bus_messages.hpp`).
  It covers:
  - the QoS, event-kind, flag and topic helpers;
  - the three outbound encoders;
  - the multipart decoder, which reads topic, metadata, optional payload, and
    drains extra parts.

  Multipart messages are sequences of parts. JSON metadata is a small `Json`
  datatype. Parsing JSON text is a function parameter.
- **the Encapsulation Packet header** of CCSDS 133.1-B, section 4.1.2
  (`zmq/ccsds/epp.py`). It covers header-size probing and selection, the
  fixed point of `accomodate_to_payload_size`, the second byte and `write`.
- **the IP tunnel server's command-line parsers** (`server-tun/src/main.cpp`):
  the CIDR split and the `sc.vc.map` channel-id parser.
- **the radio imitator** (`zmq/imitator_radio.py`). It covers:
  - the in-wait, in-progress and done slots;
  - the one-frame buffer;
  - the wrapping frame numbers and the never-zero downlink cookie;
  - the uplink datagram format.
- **the MAVLink CSV converter** (`zmq/make_csv.py`). It covers:
  - the recursive flattening of array fields into `name[i]` columns;
  - the per-component `time_steady` wrap correction;
  - the `time_steady` range filter.

Bit widths are explicit where the source relies on them:
- `uint64` cookies, with the frame cookie wrapping at 2^64;
- the `uint16` frame number of a downlink frame;
- `int32` results of `std::stoi`;
- the imitator's frame numbers, modulo 0xFFFF.

nlohmann's `get<int>` accepts integer numbers and booleans and reduces
modulo 2^32. `get<uint64_t>` targets nlohmann's own unsigned number type and
accepts numbers only, reduced modulo 2^64: a boolean cookie or frame number
throws, and `recv_message` then yields no message. `get<bool>` accepts only
booleans and `get<string>` only strings. JSON numbers are integers in this model (see
"## Left out").

Where a method changes state, it is proved against a specification function
of the old state:
- `Dispatcher.Dispatcher.ClearFramesQueue` against `Survivors`/`TimeoutEvents`;
- `UpdateFramesQueue` against `UpdatedQueue`/`UpdateEvents`;
- `DecideNextUplinkFrame` against `ReportStep`;
- `Poll` against `PollStep`;
- `BusIo.Bus.RecvMessage` against `Receive`;
- `MavCsv.MsgProcessor.Accept` against `Process`.

The properties are then proved about those functions. The dispatcher's
invariant (`Dispatcher.Dispatcher.Valid`) is that the frame cookie is not
zero and that no tracked frame is radiated or failed (`FrameQueue.AllOpen`);
every method keeps it.

## Model

| member | source | states |
|---|---|---|
| Ints.ToUint64 | src/rpi/server-uslp/src/bus_io.cpp:432-436 | the value is congruent to its input modulo 2^64 and equal to it when it fits |
| Ints.ToUint16 | src/rpi/server-uslp/src/bus_messages.hpp:83-88 | congruent modulo 2^16, equal to the input when it fits |
| Ints.ToInt32 | src/rpi/server-uslp/src/bus_io.cpp:432-434 | congruent modulo 2^32, equal to the input when it lies in the signed 32-bit range |
| Strings.DigitRun | src/rpi/server-tun/src/main.cpp:48 | the longest prefix of digits of the radix that std::stoi reads: only digits, and the next character is not one |
| Strings.DropSpaces | src/rpi/server-tun/src/main.cpp:48 | a suffix of the input that does not start with white space, as std::stoi skips it |
| Strings.StoiOfDecimal | src/rpi/server-tun/src/main.cpp:48 | std::stoi in base 10 or auto-detected base reads back every 32-bit integer written in decimal |
| Strings.StoiStopsAt | src/rpi/server-tun/src/main.cpp:63-69 | std::stoi of s followed by a non-digit, non-sign, non-space text is std::stoi of s |
| Strings.StoiHex | src/rpi/server-uslp/src/bus_io.cpp:161-163 | std::stoi in base 0 reads "0x" followed by hex digits in base 16 |
| Strings.StoiOctal | src/rpi/server-uslp/src/bus_io.cpp:161-163 | std::stoi in base 0 reads a leading '0' followed by octal digits in base 8 |
| Strings.FirstIndex | src/rpi/server-tun/src/main.cpp:24 | `find`: none exactly when the character is absent; otherwise the position of its first occurrence |
| Strings.LastIndex | src/rpi/server-tun/src/main.cpp:55 | `find_last_of`: none exactly when the character is absent; otherwise the position of its last occurrence |
| Strings.SplitLastThree | src/rpi/server-uslp/src/bus_io.cpp:149-170 | splitting base.a.b.c on '.' ends in the three non-empty dot-free parts a, b, c whatever the base |
| Strings.StartsWith | src/rpi/server-uslp/src/bus_io.cpp:172-179 | `_starts_with(l, r)` holds exactly when l is r followed by something |
| Strings.Stoi | src/rpi/server-tun/src/main.cpp:48 | std::stoi; read back from decimal by StoiOfDecimal, stopped at a non-digit by StoiStopsAt, base 0 prefixes by StoiHex and StoiOctal |
| Strings.Radix | src/rpi/server-uslp/src/bus_io.cpp:161-163 | base 0 picks 16 only with a hex digit after "0x"; used by StoiHex, StoiOctal and ParseDecimalDigits |
| Strings.IntToDecimal | src/rpi/server-uslp/src/bus_io.cpp:139-143 | operator<< of an int: never empty; read back by StoiOfDecimal |
| Strings.Split | src/rpi/server-uslp/src/bus_io.cpp:152 | boost::split with token_compress_on: at least one token; the last three tokens of base.a.b.c by SplitLastThree |
| BusMessages.InputKindOf | src/rpi/server-uslp/src/bus_messages.hpp:45-80 | each inbound message kind has its own tag: sdu_uplink_request, radio_frame_downlink, radio_uplink_state |
| BusMessages.OutputKindOf | src/rpi/server-uslp/src/bus_messages.hpp:140-173 | each outbound message kind has its own tag: sdu_uplink_event, sdu_downlink_arrived, radio_uplink_frame |
| BusMessages.DefaultRadioDownlinkFrame | src/rpi/server-uslp/src/bus_messages.hpp:80-88 | a default downlink frame is tagged radio_frame_downlink, with checksum_valid false, cookie 0, frame number 0 and no data |
| BusMessages.DefaultSduUplinkRequest | src/rpi/server-uslp/src/bus_messages.hpp:42-55 | a default uplink request is tagged sdu_uplink_request, with QoS expedited and no data |
| BusMessages.DefaultSduDownlink | src/rpi/server-uslp/src/bus_messages.hpp:157-164 | a default downlink SDU is tagged sdu_downlink_arrived, with QoS expedited, flags 0 and no data |
| BusCodec.Find | src/rpi/server-uslp/src/bus_io.cpp:50-62 | a field is found exactly when the metadata is an object holding the key, and it is that value |
| BusCodec.GetInt | src/rpi/server-uslp/src/bus_io.cpp:432-434 | get<int> accepts numbers and booleans only, reducing a number to 32 bits |
| BusCodec.GetUint64 | src/rpi/server-uslp/src/bus_io.cpp:469-470 | get<uint64_t> succeeds exactly on a number, reducing it to 64 bits; a boolean, like any other non-number, is a type error |
| BusCodec.GetBool | src/rpi/server-uslp/src/bus_io.cpp:468 | get<bool> accepts booleans only and returns their value |
| BusCodec.GetString | src/rpi/server-uslp/src/bus_io.cpp:435 | get<string> accepts strings only and returns their text |
| BusCodec.GetOrDie | src/rpi/server-uslp/src/bus_io.cpp:50-62 | a missing key raises naming the key; a present one is converted |
| BusCodec.QosToString | src/rpi/server-uslp/src/bus_io.cpp:92-103 | the two QoS names; read back by QosRoundTrip |
| BusCodec.QosFromString | src/rpi/server-uslp/src/bus_io.cpp:106-117 | a successful result is the QoS whose name is the text; any other text is an invalid argument |
| BusCodec.QosRoundTrip | src/rpi/server-uslp/src/bus_io.cpp:92-117 | `_qos_from_string(_qos_to_string(q)) == q` for both QoS values |
| BusCodec.EventKindName | src/rpi/server-uslp/src/bus_io.cpp:120-134 | the five event names; distinct by EventKindNamesDistinct |
| BusCodec.EventKindNamesDistinct | src/rpi/server-uslp/src/bus_io.cpp:120-134 | the five event kinds have five distinct names, each read back to its kind |
| BusCodec.SetBitsExact | src/rpi/server-uslp/src/bus_io.cpp:65-89 | the bits listed are exactly the set bits, in the fixed order |
| BusCodec.NamesOf | src/rpi/server-uslp/src/bus_io.cpp:80-86 | one name per listed bit, in the same order |
| BusCodec.FlagNames | src/rpi/server-uslp/src/bus_io.cpp:65-89 | the flag names of the set bits; exact by FlagNamesExact, ordered by FlagNamesOrdered, invertible by FlagsRoundTrip |
| BusCodec.FlagNamesExact | src/rpi/server-uslp/src/bus_io.cpp:65-89 | a flag's name is in the output exactly when its bit is set |
| BusCodec.FlagNamesOrdered | src/rpi/server-uslp/src/bus_io.cpp:65-89 | names come in the order incomplete, idle, corrupted, mapa, mapp, stray, without duplicates |
| BusCodec.FlagsRoundTrip | src/rpi/server-uslp/src/bus_io.cpp:65-89 | the listed bits, ORed together, give back the six flag bits of the input |
| BusCodec.TopicStartsWith | src/rpi/server-uslp/src/bus_io.cpp:137-146 | a channel topic starts with its base followed by a dot |
| BusCodec.ChannelIdToTopic | src/rpi/server-uslp/src/bus_io.cpp:137-146 | base and three decimal ids joined by dots; starts with the base by TopicStartsWith, read back by TopicRoundTrip |
| BusCodec.ChannelIdFromTopic | src/rpi/server-uslp/src/bus_io.cpp:149-170 | a topic with fewer than three dot-separated parts raises; every failure is a bad topic naming it |
| BusCodec.ChannelIdOfTokens | src/rpi/server-uslp/src/bus_io.cpp:155-164 | an id exactly when there are three tokens or more and stoi in automatic base reads each of the last three; the id is made of those three numbers |
| BusCodec.ChannelIdFromTokens | src/rpi/server-uslp/src/bus_io.cpp:149-170 | for every topic: read exactly when it has three tokens or more and the last three are numbers stoi reads in automatic base, and then the id is those numbers |
| BusCodec.ChannelIdOfJoined | src/rpi/server-uslp/src/bus_io.cpp:149-170 | base.a.b.c gives the id of the numbers a, b, c, and a bad topic naming it when one of them is not a number |
| BusCodec.HexOctalTopic | src/rpi/server-uslp/src/bus_io.cpp:161-163 | "x.0x1F.010.7" gives (31, 8, 7): hexadecimal and octal prefixes are accepted |
| BusCodec.NonNumericTopicRaises | src/rpi/server-uslp/src/bus_io.cpp:159-169 | "x.1.2.map" is a bad topic: a last token that is not a number raises |
| BusCodec.TopicRoundTrip | src/rpi/server-uslp/src/bus_io.cpp:137-170 | `_channel_id_from_topic(_channel_id_to_topic(base, id)) == id` for every base and id |
| BusCodec.ParseSduUplinkRequest | src/rpi/server-uslp/src/bus_io.cpp:422-458 | a bad topic or a missing sc_id, vchannel_id, map_id, qos or cookie fails, and so does a cookie that is not a number; a success is a request carrying the payload and the cookie number reduced to 64 bits |
| BusCodec.ParseRequestMetadata | src/rpi/server-uslp/src/bus_io.cpp:428-455 | under a readable topic, the metadata ids win over the topic ids, and qos and cookie are read back |
| BusCodec.ParseDownlinkFrame | src/rpi/server-uslp/src/bus_io.cpp:461-480 | read exactly when checksum_valid is a boolean and frame_no and cookie are numbers; then the frame carries the flag, frame_no reduced to 64 and then 16 bits, the cookie reduced to 64 bits, and the payload |
| BusCodec.OptionalCookie | src/rpi/server-uslp/src/bus_io.cpp:489-496 | an absent or null cookie field reads as no cookie; it fails exactly when the field is present, not null and not a number; a cookie read is the field's number reduced to 64 bits |
| BusCodec.ParseRadioUplinkState | src/rpi/server-uslp/src/bus_io.cpp:483-511 | a success is a radio uplink state; it succeeds exactly when each of the four cookie fields is absent, null or a number |
| BusCodec.Classify | src/rpi/server-uslp/src/bus_io.cpp:363-391 | a request exactly for a topic starting with the request prefix that parses; a downlink frame or an uplink state exactly for the equal topic that parses; nothing otherwise |
| BusCodec.RequestRoundTrip | src/rpi/server-uslp/src/bus_io.cpp:363-391 | a request published under any channel topic reads back with the metadata's ids, QoS, cookie and data |
| BusCodec.RequestNeedsTopicIds | src/rpi/server-uslp/src/bus_io.cpp:387-391 | a request topic without three readable ids yields no message, whatever the metadata |
| BusCodec.UndottedIdIsNothing | src/rpi/server-uslp/src/bus_io.cpp:428 | a request topic whose id part has no dots, such as "66-0-1", yields no message |
| BusCodec.DownlinkFrameRoundTrip | src/rpi/server-uslp/src/bus_io.cpp:461-480 | a downlink frame reads back with its frame number reduced modulo 2^16 |
| BusCodec.DownlinkFrameNeedsFields | src/rpi/server-uslp/src/bus_io.cpp:468-470 | without checksum_valid, frame_no or cookie, a downlink frame yields no message |
| BusCodec.RequestNeedsFields | src/rpi/server-uslp/src/bus_io.cpp:432-436 | without sc_id, vchannel_id, map_id, qos or cookie, no request is read |
| BusCodec.UplinkStateRoundTrip | src/rpi/server-uslp/src/bus_io.cpp:483-511 | the four optional cookies read back; cookie_sent maps to done and cookie_dropped to failed |
| BusCodec.UplinkStateAbsentIsNone | src/rpi/server-uslp/src/bus_io.cpp:489-496 | absent fields are no cookie, and a cookie 0 is distinct from none |
| BusCodec.BooleanFrameFieldIsNothing | src/rpi/server-uslp/src/bus_io.cpp:469-470 | a radio.downlink_frame whose frame_no or cookie is a boolean yields no message |
| BusCodec.BooleanStateCookieIsNothing | src/rpi/server-uslp/src/bus_io.cpp:489-501 | a radio.uplink_state with any of its four cookies a boolean yields no message |
| BusCodec.TrueCookieSentIsNothing | src/rpi/server-uslp/src/bus_io.cpp:489-501 | `{"cookie_sent": true}` on radio.uplink_state yields no message |
| BusCodec.BooleanRequestCookieIsNothing | src/rpi/server-uslp/src/bus_io.cpp:436 | a request whose cookie is a boolean is never read as a request |
| BusCodec.UnknownTopicIsNothing | src/rpi/server-uslp/src/bus_io.cpp:366-391 | any other topic yields no message |
| BusCodec.MessageEnd | src/rpi/server-uslp/src/bus_io.cpp:355-361 | the end of the message a part belongs to: the first later part without the more flag |
| BusCodec.Receive | src/rpi/server-uslp/src/bus_io.cpp:299-394 | consumes at least one part and no more than there are; an empty topic gives nothing after one part; a topic with no second part raises after one part; empty metadata gives nothing after two parts, leaving the rest unread; metadata json::parse rejects raises after two parts; nothing else raises |
| BusCodec.ReceiveConsumesMessage | src/rpi/server-uslp/src/bus_io.cpp:305-361 | a received message consumes its whole multipart message; an empty topic returns nothing after one part; a raise consumes at most two parts; reading only part of a message never yields one |
| BusCodec.ReceiveThreeParts | src/rpi/server-uslp/src/bus_io.cpp:299-394 | topic, metadata and payload are read as Classify says, consuming exactly three parts |
| BusCodec.FlagsJson | src/rpi/server-uslp/src/bus_io.cpp:241 | the flags array holds the names, in order |
| BusCodec.Encode | src/rpi/server-uslp/src/bus_io.cpp:229-296 | an uplink event is two parts and the others three; only the last part ends the message |
| BusCodec.DownlinkSduDecode | src/rpi/server-uslp/src/bus_io.cpp:229-251 | a downlink SDU reads back with its channel, QoS, data and six flag bits unchanged |
| BusCodec.UplinkEventDecode | src/rpi/server-uslp/src/bus_io.cpp:254-279 | an uplink event reads back with its channel, part cookie, event kind and comment |
| BusCodec.RadioUplinkFrameDecode | src/rpi/server-uslp/src/bus_io.cpp:282-296 | a radio uplink frame reads back with its cookie and data |
| BusCodec.EncodeDecode | src/rpi/server-uslp/src/bus_io.cpp:229-296 | every outbound message reads back, and its topic carries its channel id |
| BusIo.DownlinkSduFlagsToStrings | src/rpi/server-uslp/src/bus_io.cpp:65-89 | the loop yields exactly the flag names of the set bits, in order |
| BusIo.Bus.constructor | src/rpi/server-uslp/src/bus_io.cpp:193-196 | nothing published, the inbox is the pending parts |
| BusIo.Bus.SendSduDownlink | src/rpi/server-uslp/src/bus_io.cpp:229-251 | appends exactly the downlink SDU's encoding |
| BusIo.Bus.SendSduUplinkEvent | src/rpi/server-uslp/src/bus_io.cpp:254-279 | appends exactly the uplink event's encoding |
| BusIo.Bus.SendRadioUplinkFrame | src/rpi/server-uslp/src/bus_io.cpp:282-296 | appends exactly the radio frame's encoding |
| BusIo.Bus.SendMessage | src/rpi/server-uslp/src/bus_io.cpp:229-296 | records the message and appends its encoding; published parts stay the encoding of all sent messages |
| BusIo.Bus.Drain | src/rpi/server-uslp/src/bus_io.cpp:355-361 | reads the rest of the current multipart message |
| BusIo.Bus.RecvMessage | src/rpi/server-uslp/src/bus_io.cpp:299-394 | the outcome and the parts consumed are those of Receive |
| FrameQueue.NextCookie | src/rpi/server-uslp/src/dispatcher.cpp:391-392 | the next frame cookie is never zero: one more, or 1 after wrapping at 2^64 |
| FrameQueue.PartEventsShape | src/rpi/server-uslp/src/dispatcher.cpp:229-242 | one event per part cookie, in order, with the frame's channel |
| FrameQueue.SurvivorsExact | src/rpi/server-uslp/src/dispatcher.cpp:214-247 | an entry survives the sweep exactly when send_time + timeout > now |
| FrameQueue.SurvivorsAppend | src/rpi/server-uslp/src/dispatcher.cpp:214-247 | the sweep keeps the relative order of the survivors and of the events |
| FrameQueue.SurvivorsNoTimeout | src/rpi/server-uslp/src/dispatcher.cpp:214-247 | with nothing timed out, the queue is unchanged and no event is emitted |
| FrameQueue.Survivors | src/rpi/server-uslp/src/dispatcher.cpp:214-247 | the entries the timeout sweep keeps; exact by SurvivorsExact, order-preserving by SurvivorsAppend |
| FrameQueue.ApplyReportFacts | src/rpi/server-uslp/src/dispatcher.cpp:250-310 | in_wait, then in_progress, then done, then failed set the state, the last matching one winning; an entry named by no field is unchanged |
| FrameQueue.FinishedIff | src/rpi/server-uslp/src/dispatcher.cpp:271-323 | an open entry leaves the queue exactly when done or failed names it |
| FrameQueue.UpdatedQueueAppend | src/rpi/server-uslp/src/dispatcher.cpp:313-323 | the update keeps the order of the entries it keeps |
| FrameQueue.UpdateEventsAppend | src/rpi/server-uslp/src/dispatcher.cpp:271-310 | the update's events come in queue order |
| FrameQueue.UpdateUnnamed | src/rpi/server-uslp/src/dispatcher.cpp:250-325 | a report naming no entry changes nothing and emits nothing |
| FrameQueue.UpdatedQueueMembers | src/rpi/server-uslp/src/dispatcher.cpp:250-325 | every kept entry is an updated old entry that is not finished |
| FrameQueue.UpdatedQueue | src/rpi/server-uslp/src/dispatcher.cpp:250-325 | the queue after the state update; characterised by FinishedIff, UpdatedQueueAppend, UpdateUnnamed and UpdatedQueueMembers |
| FrameQueue.TimeoutEvents | src/rpi/server-uslp/src/dispatcher.cpp:229-242 | the sdu_radiation_failed events of the timed-out entries' parts, in queue order; split by SurvivorsAppend, all failures by TimeoutEventsAreFailures |
| FrameQueue.ApplyReport | src/rpi/server-uslp/src/dispatcher.cpp:256-310 | the entry after the four checks; only the state changes and the last matching check wins by ApplyReportFacts, finished exactly when done or failed names it by FinishedIff |
| FrameQueue.ReportEvents | src/rpi/server-uslp/src/dispatcher.cpp:270-310 | the radiated parts if done names the entry, then the failed parts if failed does; only SDU events by UpdateEventsAreSduEvents |
| FrameQueue.UpdateEvents | src/rpi/server-uslp/src/dispatcher.cpp:250-325 | the events of the update entry by entry, in queue order by UpdateEventsAppend, SDU events only by UpdateEventsAreSduEvents, none for an unnamed queue by UpdateUnnamed |
| FrameQueue.ReportLeavesNoFinished | src/rpi/server-uslp/src/dispatcher.cpp:312-323 | whatever the queue, no entry left after a report is radiated or failed |
| FrameQueue.SweepKeepsOpen | src/rpi/server-uslp/src/dispatcher.cpp:214-247 | the timeout sweep of a queue with no finished entry leaves none |
| FrameQueue.OpenSplice | src/rpi/server-uslp/src/dispatcher.cpp:312-323 | erasing an entry, or replacing it by an unfinished one, keeps a queue free of finished entries |
| FrameQueue.Admission | src/rpi/server-uslp/src/dispatcher.cpp:336-401 | the admission decision; its two outcomes by ReportWithoutAdmission and ReportWithAdmission |
| FrameQueue.ReportStep | src/rpi/server-uslp/src/dispatcher.cpp:328-404 | sweep, update, admission; its properties by ReportWithAdmission, ReportWithoutAdmission and ReportKeepsCookieNonZero |
| FrameQueue.ReportWithoutAdmission | src/rpi/server-uslp/src/dispatcher.cpp:336-373 | with cookie_in_wait reported, a frame of ours blocking, or nothing to peek: no frame is sent, the queue is not extended and the cookie is kept |
| FrameQueue.ReportWithAdmission | src/rpi/server-uslp/src/dispatcher.cpp:384-401 | otherwise: exactly one 200-byte radio frame with the current cookie, emitted last; one new sent_to_radio entry at the back; the cookie moves on; afterwards exactly one entry blocks |
| FrameQueue.ReportKeepsCookieNonZero | src/rpi/server-uslp/src/dispatcher.cpp:391-392 | a report never makes the frame cookie zero |
| FrameQueue.TimeoutEventsAreFailures | src/rpi/server-uslp/src/dispatcher.cpp:229-242 | the sweep emits only sdu_radiation_failed events |
| FrameQueue.UpdateEventsAreSduEvents | src/rpi/server-uslp/src/dispatcher.cpp:271-310 | the update emits only sdu_radiated and sdu_radiation_failed events |
| Dispatcher.SduDownlinksRelay | src/rpi/server-uslp/src/dispatcher.cpp:50-90 | each downlink SDU event becomes one sdu_downlink with channel, QoS, flags and data unchanged |
| Dispatcher.SduDownlinkOf | src/rpi/server-uslp/src/dispatcher.cpp:82-89 | the sdu_downlink built from a stack SDU event; channel, QoS, flags and data copied unchanged by SduDownlinksRelay |
| Dispatcher.RequestReply | src/rpi/server-uslp/src/dispatcher.cpp:122-176 | one event for part (cookie, 0, final); accepted exactly when the channel exists and push_sdu succeeds; otherwise rejected, carrying push_sdu's text or the no-channel text |
| Dispatcher.PollLeavesNoTimedOut | src/rpi/server-uslp/src/dispatcher.cpp:24-47 | after a poll that does not raise, no tracked entry is timed out |
| Dispatcher.OnlyReportsSendFrames | src/rpi/server-uslp/src/dispatcher.cpp:93-119 | requests and downlink frames leave the queue and the cookie alone and send no radio frame |
| Dispatcher.RequestAnsweredOnce | src/rpi/server-uslp/src/dispatcher.cpp:122-176 | a request is answered with exactly one event, accepted exactly when the channel exists and push_sdu succeeds |
| Dispatcher.NeverSentToRadio | src/rpi/server-uslp/src/dispatcher.cpp:24-404 | the dispatcher never emits sdu_sent_to_radio |
| Dispatcher.Dispatch | src/rpi/server-uslp/src/dispatcher.cpp:93-119 | routing of the three inbound kinds; properties by OnlyReportsSendFrames, RequestReply and SduDownlinksRelay |
| Dispatcher.PollStep | src/rpi/server-uslp/src/dispatcher.cpp:24-47 | one poll: receive, dispatch, sweep; properties by PollLeavesNoTimedOut and NeverSentToRadio |
| Dispatcher.Dispatcher.constructor | src/rpi/server-uslp/src/dispatcher.hpp:36 | empty queue, first frame cookie 1, nothing emitted |
| Dispatcher.Dispatcher.Send | src/rpi/server-uslp/src/dispatcher.cpp:89 | one send_message call: the message joins the sent log, and the inbox is untouched |
| Dispatcher.Dispatcher.EmitPartEvents | src/rpi/server-uslp/src/dispatcher.cpp:276-289 | the loop over a frame's part cookies sends exactly PartEvents: one event of the kind per part, in order (PartEventsShape); the sweep and the failed branch run the same loop |
| Dispatcher.Dispatcher.DropFrame | src/rpi/server-uslp/src/dispatcher.cpp:229-245 | erases one entry and emits its part events, keeping the queue free of finished entries |
| Dispatcher.Dispatcher.ClearFramesQueue | src/rpi/server-uslp/src/dispatcher.cpp:214-247 | the queue becomes the survivors of the sweep and the emitted events are the sweep's |
| Dispatcher.Dispatcher.ApplyReportTo | src/rpi/server-uslp/src/dispatcher.cpp:257-310 | one entry updated by the report, with its done or failed events |
| Dispatcher.Dispatcher.UpdateFrameAt | src/rpi/server-uslp/src/dispatcher.cpp:257-323 | updates the entry in place, or erases it when finished, so no finished entry stays |
| Dispatcher.Dispatcher.UpdateLoopBody | src/rpi/server-uslp/src/dispatcher.cpp:255-323 | one turn of the update loop moves the split between updated and pending entries past one entry of the starting queue and emits that entry's report events |
| Dispatcher.Dispatcher.UpdateFramesQueue | src/rpi/server-uslp/src/dispatcher.cpp:250-325 | the queue and events become those of the state update |
| Dispatcher.Dispatcher.CanSend | src/rpi/server-uslp/src/dispatcher.cpp:347-363 | true exactly when no tracked entry is in sent_to_radio or in_wait |
| Dispatcher.Dispatcher.AdmitNextFrame | src/rpi/server-uslp/src/dispatcher.cpp:336-401 | queue, cookie and events become those of the admission decision |
| Dispatcher.Dispatcher.DecideNextUplinkFrame | src/rpi/server-uslp/src/dispatcher.cpp:328-404 | sweep, update and admission in that order: the state becomes ReportStep's |
| Dispatcher.Dispatcher.OnMapSduEvent | src/rpi/server-uslp/src/dispatcher.cpp:50-90 | emits one sdu_downlink copied from the event |
| Dispatcher.Dispatcher.OnRadioDownlinkFrame | src/rpi/server-uslp/src/dispatcher.cpp:179-197 | pushes the frame bytes whatever the checksum flag and relays every resulting SDU; nothing else changes |
| Dispatcher.Dispatcher.OnSduUplinkRequest | src/rpi/server-uslp/src/dispatcher.cpp:122-176 | an unknown channel never reaches push_sdu; exactly one reply is emitted |
| Dispatcher.Dispatcher.DispatchBusMessage | src/rpi/server-uslp/src/dispatcher.cpp:93-119 | the state and events become Dispatch's; pushes only for requests on known channels and downlink frames |
| Dispatcher.Dispatcher.HandleReceived | src/rpi/server-uslp/src/dispatcher.cpp:24-47 | a received message is dispatched, then the sweep runs |
| Dispatcher.Dispatcher.Poll | src/rpi/server-uslp/src/dispatcher.cpp:24-47 | at most one bus message, then the sweep; a raising receive propagates; the state becomes PollStep's |
| Epp.ProbeHeaderSize | src/zmq/ccsds/epp.py:29-45 | 0 exactly when the version bits are not 7; otherwise 1, 2, 4 or 8 from the low two bits |
| Epp.LengthOfCode | src/zmq/ccsds/epp.py:43-45 | the four length codes map to 1, 2, 4 and 8, and back |
| Epp.HeaderSize | src/zmq/ccsds/epp.py:54-80 | always 1, 2, 4 or 8; 2 only for a packet size in 1..0xFF |
| Epp.HeaderSizeLadder | src/zmq/ccsds/epp.py:54-80 | 8 exactly for a CCSDS field or a size over 0xFFFFFF; 1 exactly with no optional field, a non-extended protocol and size 0 |
| Epp.HeaderSizeMonotone | src/zmq/ccsds/epp.py:54-80 | the header size does not decrease as the packet size grows |
| Epp.SecondByte | src/zmq/ccsds/epp.py:177-183 | low nibble the protocol id extension, high nibble the user-defined field |
| Epp.SecondByteRoundTrip | src/zmq/ccsds/epp.py:177-187 | fields below 16 are recovered from the second byte |
| Epp.SecondByteOfLoaded | src/zmq/ccsds/epp.py:185-187 | loading a byte and making it again gives the same byte |
| Epp.FirstByte | src/zmq/ccsds/epp.py:139-143 | version 7, the protocol id's low three bits, the length code |
| Epp.BigEndian16 | src/zmq/ccsds/epp.py:127 | two octets, most significant first |
| Epp.EncodeFacts | src/zmq/ccsds/epp.py:112-144 | write fails exactly for 8 octets or a 4-octet size above 0xFFFF; otherwise its length is size(), its first byte is probed back to size(), and the length field holds packet_size |
| Epp.Encode | src/zmq/ccsds/epp.py:112-144 | write(): the bytes or the exception; lengths and probing by EncodeFacts, the raising cases by FourOctetOverflow and EightOctetNeverWritten |
| Epp.EppHeader.Size | src/zmq/ccsds/epp.py:54-80 | size() is the header size of the current fields |
| Epp.EppHeader.RealPacketSize | src/zmq/ccsds/epp.py:82-83 | the length field counts from zero: the field is one less than the real size, which is at least one for a field that is not negative; SetRealPacketSize sets it |
| Epp.EppHeader.constructor | src/zmq/ccsds/epp.py:47-52 | no optional field, packet size 0: a 1-octet header and real packet size 1 |
| Epp.EppHeader.SetRealPacketSize | src/zmq/ccsds/epp.py:85-96 | rejects 0 and values above 2^32, changing nothing; otherwise real_packet_size() is the value |
| Epp.EppHeader.AccomodateToPayloadSize | src/zmq/ccsds/epp.py:98-110 | the loop ends with packet_size + 1 == payload + size(), and returns that; the header size reached is the fit nearest the one the old packet size called for, so the result depends on the packet size held before the call |
| Epp.SmallPayloadFitsTwoOctets | src/zmq/ccsds/epp.py:98-110 | with no optional field and a payload of 1 to 0xFD octets, one octet does not fit and two do, so a fresh header settles on two |
| Epp.EppHeader.Write | src/zmq/ccsds/epp.py:112-144 | the bytes, or the exception, of the header as written |
| Epp.EppHeader.LoadSecondByte | src/zmq/ccsds/epp.py:185-187 | stores both nibbles, and making the second byte gives the byte back |
| Epp.FourOctetOverflow | src/zmq/ccsds/epp.py:123-127 | packet size 0x10000 selects 4 octets, and writing them raises |
| Epp.EightOctetNeverWritten | src/zmq/ccsds/epp.py:128-135 | an 8-octet header is never written |
| Epp.CorrectedHeaderSize | src/zmq/ccsds/epp.py:54-80 | 4 octets only up to 0xFFFF |
| Epp.CorrectedEncodeFacts | src/zmq/ccsds/epp.py:112-144 | every header whose size and CCSDS field fit is written, probed back to its size, with the packet size in its length field |
| Epp.CorrectedAgreesOutsideOverflow | src/zmq/ccsds/epp.py:54-144 | the corrected sizes differ only for sizes 0x10000..0xFFFFFF without a CCSDS field, and writing agrees elsewhere |
| TunConfig.Number | src/rpi/server-tun/src/main.cpp:48 | a failure is what std::stoi threw |
| TunConfig.SplitCidrAddr | src/rpi/server-tun/src/main.cpp:20-33 | succeeds exactly when there is a slash and the input does not start with one, returning the text before the first slash |
| TunConfig.SplitCidrMask | src/rpi/server-tun/src/main.cpp:36-49 | no slash: no slash error |
| TunConfig.CidrParts | src/rpi/server-tun/src/main.cpp:20-49 | addr/tail: empty addr is refused, else it is the address; empty tail is refused, else the mask is stoi of the tail |
| TunConfig.CidrRoundTrip | src/rpi/server-tun/src/main.cpp:20-49 | an address and mask written as addr/mask read back |
| TunConfig.ChannelIdTexts | src/rpi/server-tun/src/main.cpp:52-65 | no dot exactly gives "no dots"; the only other failure is "only one dot" |
| TunConfig.SplitChannelId | src/rpi/server-tun/src/main.cpp:52-69 | no dot exactly gives "no dots" |
| TunConfig.ChannelIdOneDot | src/rpi/server-tun/src/main.cpp:60-61 | one dot is refused |
| TunConfig.ChannelIdParts | src/rpi/server-tun/src/main.cpp:63-69 | sc before the first dot, map after the last, vc from the middle read up to its dot |
| TunConfig.ChannelIdIgnoresThirdPart | src/rpi/server-tun/src/main.cpp:63-69 | in a.b.x.c the part x is never read |
| TunConfig.ChannelIdRoundTrip | src/rpi/server-tun/src/main.cpp:52-69 | sc.vc.map written in decimal reads back |
| TunConfig.DefaultChannel | src/rpi/server-tun/src/main.cpp:149-150 | "66.0.1" gives (66, 0, 1) |
| TunConfig.DefaultAddress | src/rpi/server-tun/src/main.cpp:151 | "10.0.0.1/24" gives "10.0.0.1" and 24 |
| RadioImitator.NextFrameNo | src/zmq/imitator_radio.py:213 | frame numbers count modulo 0xFFFF, so a stored one is at most 0xFFFE |
| RadioImitator.NextDownlinkCookie | src/zmq/imitator_radio.py:214-215 | the downlink cookie is never zero, and grows by one from a positive one |
| RadioImitator.LittleEndian16 | src/zmq/imitator_radio.py:176 | two octets, least significant first |
| RadioImitator.SplitDatagram | src/zmq/imitator_radio.py:158-159 | fails exactly for a datagram shorter than two octets |
| RadioImitator.DatagramRoundTrip | src/zmq/imitator_radio.py:158-176 | a sent datagram splits back into its frame number and payload |
| RadioImitator.DatagramsAreFrames | src/zmq/imitator_radio.py:158-176 | every datagram of two octets or more is one that could have been sent |
| RadioImitator.ArrivalStates | src/zmq/imitator_radio.py:334-342 | one uplink-state report per arrival, with its cookie in wait |
| RadioImitator.Radio.State | src/zmq/imitator_radio.py:296-305 | the report maps done to cookie_sent, and cookie_dropped is always null |
| RadioImitator.Radio.constructor | src/zmq/imitator_radio.py:78-99 | downlink cookie 1, frame numbers 0, empty slots and buffer |
| RadioImitator.Radio.SendUplinkState | src/zmq/imitator_radio.py:296-313 | publishes the current report |
| RadioImitator.Radio.ProcessUplinkFrame | src/zmq/imitator_radio.py:334-342 | in_wait becomes the cookie and the buffer the payload, replacing a frame not yet sent |
| RadioImitator.Radio.ActiveSleep | src/zmq/imitator_radio.py:130-145 | the last arriving request stays in wait; one report per arrival |
| RadioImitator.Radio.DoTransmitIteration | src/zmq/imitator_radio.py:166-192 | empty buffer: returns false and changes nothing; else one datagram of frame number and buffer, in_wait to in_progress to done, frame number incremented once |
| RadioImitator.Radio.Transmit | src/zmq/imitator_radio.py:174-189 | the transmission steps and the three reports they publish |
| RadioImitator.Radio.SendDownlinkFrame | src/zmq/imitator_radio.py:206-262 | publishes the frame and its rssi packet with the current cookie; cookie and frame number move on, counters grow by one |
| RadioImitator.Radio.DoRecvIteration | src/zmq/imitator_radio.py:147-164 | nothing waiting: no change; a short datagram raises; otherwise a downlink frame with a valid checksum and the frame number it carries |
| RadioImitator.Radio.ProcessPowerRequest | src/zmq/imitator_radio.py:326-332 | always raises NameError, changing nothing |
| RadioImitator.Radio.ProcessPowerRequestCorrected | src/zmq/imitator_radio.py:326-332 | records the requested power |
| RadioImitator.Radio.ProcessInputMessage | src/zmq/imitator_radio.py:315-324 | by topic: power request, uplink frame, or only logged |
| MavCsv.Put | src/zmq/make_csv.py:30 | the key maps to the value, every other key is unchanged |
| MavCsv.Remove | src/zmq/make_csv.py:150-151 | the key is gone, every other key is unchanged |
| MavCsv.PutAllFinds | src/zmq/make_csv.py:22-38 | with distinct keys, each stored leaf is found under its key |
| MavCsv.PutAllFresh | src/zmq/make_csv.py:22-38 | new distinct keys are appended in order |
| MavCsv.Index | src/zmq/make_csv.py:27 | "%s[%d]" starts with the base and a bracket |
| MavCsv.IndexDistinct | src/zmq/make_csv.py:27 | different element numbers give keys that differ whatever follows |
| MavCsv.Expand | src/zmq/make_csv.py:22-30 | fills the dict with the leaves of the value, under base[i] keys, recursively |
| MavCsv.Flatten | src/zmq/make_csv.py:22-30 | the key/leaf pairs of a value; distinct keys by FlattenDistinct, leaf keys by FlattenLeaves and NestedKeys |
| MavCsv.ExpandArrays | src/zmq/make_csv.py:32-38 | the dict of all fields' leaves, field by field |
| MavCsv.FlattenDistinct | src/zmq/make_csv.py:25-28 | the keys of one field's leaves are distinct |
| MavCsv.FlattenFieldsDistinct | src/zmq/make_csv.py:32-38 | fields with distinct names give distinct keys, in order |
| MavCsv.ScalarFieldKept | src/zmq/make_csv.py:29-38 | a scalar field keeps its key and value |
| MavCsv.FlattenLeaves | src/zmq/make_csv.py:25-28 | a list of leaves gives base[0] … base[n-1] |
| MavCsv.NestedKeys | src/zmq/make_csv.py:25-28 | nesting gives base[i][j] keys |
| MavCsv.Correct | src/zmq/make_csv.py:120-131 | the offset grows by int(0xFFFFFFFF/1000) exactly when the value would fall below the previous one |
| MavCsv.RawTimeSteadyRange | src/zmq/make_csv.py:124-126 | a 32-bit millisecond count divided by 1000 lies within the correction |
| MavCsv.CorrectNeverDecreases | src/zmq/make_csv.py:117-131 | the corrected value does not fall below the previous one, and offsets only grow |
| MavCsv.Admits | src/zmq/make_csv.py:133-141 | dropped exactly below the start or above the stop; a str time_steady raises with a bound set |
| MavCsv.Finish | src/zmq/make_csv.py:133-151 | dropped exactly when the filter refuses; otherwise mavpackettype removed, the launch offset added and all else kept |
| MavCsv.CorrectRow | src/zmq/make_csv.py:117-131 | KeyError without time_steady, TypeError for a str; otherwise the corrected value replaces it |
| MavCsv.ProcessState | src/zmq/make_csv.py:117-131 | offsets only grow, and only for the message's own corrected component |
| MavCsv.ProcessWritesCorrected | src/zmq/make_csv.py:130-131 | a written corrected row holds the new previous value |
| MavCsv.ProcessDrops | src/zmq/make_csv.py:133-141 | a message is dropped exactly when its time_steady is outside the range |
| MavCsv.ProcessNeverDecreases | src/zmq/make_csv.py:117-131 | for counter values the on-board computer can produce, the component's corrected value does not go down |
| MavCsv.ProcessKeepsFields | src/zmq/make_csv.py:57-179 | a written row holds every other scalar field unchanged |
| MavCsv.BaseRow | src/zmq/make_csv.py:61-70 | the expanded fields plus seq, srcSystem and srcComponent; fields kept by ProcessKeepsFields |
| MavCsv.Process | src/zmq/make_csv.py:57-179 | one accepted message: the row written and the new correction state; by ProcessState, ProcessWritesCorrected, ProcessDrops and ProcessKeepsFields |
| MavCsv.MsgProcessor.constructor | src/zmq/make_csv.py:40-55 | no offsets, no previous values, no rows, count 0 |
| MavCsv.MsgProcessor.Accept | src/zmq/make_csv.py:57-179 | offsets and previous values become Process's; a written row is appended and counted once; a dropped or raising message writes nothing |
| MavCsv.MsgProcessor.CorrectTimeSteady | src/zmq/make_csv.py:117-131 | the row and the component's offset and previous value become CorrectRow's |
| MavCsv.MsgProcessor.Filter | src/zmq/make_csv.py:133-151 | the filter's result is Finish's |
| MavCsv.MsgProcessor.WriteRow | src/zmq/make_csv.py:153-179 | the first row fixes the field names; each row is appended and counted once |

## Left out

- ZeroMQ sockets, polling and EINTR handling. A sent message is appended to a
  log, and received parts are a given list with the more flag.
- JSON text parsing and dumping. Parsing is a function parameter; a metadata
  part stays a `Json` value.
- JSON floating-point numbers. `JNumber` holds an integer, so a float in
  the metadata is not modelled. nlohmann's `get<int>` / `get<uint64_t>`
  would truncate it toward zero.
- The USLP library's `gmapid_t`. It is modelled as three 32-bit ints. Its
  field widths and any checks its constructor and setters make are not part
  of this model. So the `topic_ch_id != retval->gmapid` comparison and
  the relayed ids are compared and copied as 32-bit ints.
- The default QoS of a new `sdu_uplink_request` (`BusMessages.DefaultSduUplinkRequest`)
  cannot be observed on the bus: the parser always overwrites it with the
  metadata's qos.
- The dispatcher's clock. One `now` per poll stands in for the
  `steady_clock::now()` read per entry.
- The USLP stack. Its answers are parameters; only `push_sdu` and
  `push_frame` are recorded, in ghost logs.
- Printing a channel id in the rejection comment. It is the parameter
  `channelText`.
- Logging, the process shell, signal handlers and environment configuration.
- Dispatcher contracts are stated on the typed messages sent (`io.sent`).
  Their wire encoding is `BusIo.Bus.SendMessage`'s.
- Exceptions from the stack inside `_decide_next_uplink_frame` and the other
  handlers. The stack is assumed to answer without throwing, apart from the
  `push_sdu` failure.
- The out-of-date `dispatcher.hpp`. Only its initial cookie 1 is used.
- `EppHeader.read`, the bytes branch of `probe_header_size` (it indexes
  the type `bytes`), and the 8-octet `write`, which is modelled as always
  raising.
- The imitator's sockets, sleeps and time stamps, and the periodic rssi and
  statistics messages.
  - `active_sleep` is modelled only by the uplink frame requests that arrive
    during it.
  - `pa_power` is an integer.
- RadioImitator.Radio.ProcessUplinkFrame takes the request's cookie already
  decoded and models the success path of imitator_radio.py:335-338 only. It
  does not model that `json.loads` can fail on the metadata, that a
  metadata without "cookie" raises KeyError, that a message without a
  payload part raises IndexError, or that a cookie which is not an integer
  is stored in wait as it is. The cookie is an `int`.
- TunConfig.SplitChannelId: when several parts are unreadable, the error is
  taken from the first of sc, vc and map. C++ leaves the evaluation order of
  the three `std::stoi` calls unspecified.
- make_csv.py:
  - floating-point and calendar columns: time_gregorian, time_s_from_launch,
    mins_from_launch, the log time stamp, lat/lon/h and
    mins_steady_from_launch (lines 72-111, 146-148);
  - CSV file writing and `print`;
  - the writer's check for keys outside the first row's field names;
  - a numeric field is an integer.
- MavCsv: the `defaultdict` reads that insert 0 are modelled as reads of 0.
  The dict `_expand` fills in place is passed in and handed back.
- make_csv.py `main`: the per-stream processor map and the bad-data count.
- The rest of the repository (the sender scripts `send_*.py`,
  `senders_common.py`, the older `ccsds-link` servers, the laptop and ground
  tools, the firmware) is not part of this model.
  The dash-separated topic of `send_uplink_sdu_request.py:59` is covered by
  `BusCodec.UndottedIdIsNothing`.

## Findings

| source | as written | input that shows it | evidently intended | confidence | as-written member | corrected member |
|---|---|---|---|---|---|---|
| src/zmq/ccsds/epp.py:123-127 | `size()` picks 4 octets up to packet_size 0xFFFFFF, but `write` packs the length with `>H` | packet_size 0x10000, no optional field: `struct.error` | the 4-octet header's 16-bit length holds up to 0xFFFF, larger sizes need 8 octets | not executed | Epp.FourOctetOverflow | Epp.CorrectedEncodeFacts |
| src/zmq/ccsds/epp.py:133-135 | the 8-octet branch calls `struct.packet`, which does not exist | any header with a CCSDS field: `AttributeError` | `struct.pack` of the CCSDS field and the 32-bit length | not executed | Epp.EightOctetNeverWritten | Epp.CorrectedEncodeFacts |
| src/zmq/imitator_radio.py:327 | `process_power_request` reads `message`, but its parameter is `message_parts` | any radio.pa_power_request: `NameError` | read the metadata from `message_parts` and record pa_power | not executed | RadioImitator.Radio.ProcessPowerRequest | RadioImitator.Radio.ProcessPowerRequestCorrected |

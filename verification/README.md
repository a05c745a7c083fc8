# A model of an mDNS library

This project models the DNS codec with name compression and the Sans-IO server of an mDNS and
DNS-SD library written in Rust, and proves what the two are for: a written message is read back with
the same meaning, exactly when its names allow it; every reachable server state is sound and sends
at bounded rates; a server whose names do not clash ignores its own advertisement, and for all
proper names it is stated exactly when a server does; and two servers find each other, octet for
octet.

`dafny verify dfyconfig.toml` verifies everything.

## How the model is built

**Names.** A name as the program holds it (`Label`) is a list of parts: text with dots, or a raw run
of a received packet. `Segs` is its meaning, the segments that label equality compares. The iterators
and the comparisons are classes and methods that step as the source does; the text iterator and
`str::split` differ on the empty text and on a last dot, and `SplitAgrees` says that they differ
nowhere else.

**Parsing a name.** `Decode` is an independent reference: decompression after section 4.1.4 of
RFC 1035, segment by segment, four pointers at most, any of the two top bits marking a pointer, as
the code reads it. `DoParse`, `FollowPointer` and `Parse` are the loop of the source, proved against
the specification `ParseRuns`, and `ParseIsDecode` joins that to the reference on every input.

**Writing.** The class `Writers.Writer` is the bounded writer, with its buffer, position, overflow
flag and compression table. Its ghost field `ideal` is what a writer without bounds would hold;
`Valid` ties the two, and says that octets are lost exactly when `ideal` is longer than the buffer.
`EmitLabel`, `EmitAnswer` and the like give the octets and the table of such a writer; every
serializing method is proved to append exactly them. In the specification every table entry also
carries the name it denotes (`segs`), which is not always its text: the suffix of a part that is not
the last of its name stands for that suffix and all the later parts, and where a pointer leads to
such an entry, so does what is written in front of it.

**Messages.** The record types, the counted loops, the lengths filled in afterwards and the dispatch
on the QR bit follow the source. `View` replaces every name by its segments; equal views are what
`==` on messages compares. `GoodNames` says of a message that each name has segments of 1 to 63
octets and that the suffix found in the table, if any, was stored for just that suffix, in pointer
reach, with pointers to spare. `MessageTrip` proves this condition exact. `Readings` says what every
other message of proper names reads as, from the names alone: `Reading` follows a pointer to what
its target really stands for, or says that the name is rejected. `NoClash` gives a simple sufficient
condition on the texts alone, and `Sizes` bounds the length of a message by its meaning. `Witnesses`
and `Echo` show whole families where names clash, and what is read then.

**An independent receiver.** `Standard` reads messages by offset as section 4.1 of RFC 1035 lays them
out, with every offset and number written out, and shares nothing with the codec but its types and
the UTF-8 check. Read leniently, it
says on every packet whether and as what the program accepts it (`Accepted`); read strictly, with
reserved label octets refused and RDLENGTH obeyed, it reads what the program writes (`MessageReads`).

**Server.** `Servers.State` and its step functions are the specification; the class
`ServerObject.Server` has the mutable fields of the source, updates them in place and writes into
the caller's buffer, every method being proved against a step function. The theorems about runs,
rates, deduplication, self-filtering and discovery are about those functions. `Discover` states the
exchange between any two states; `Meet` is a whole discovery from two new servers, under conditions
a caller can check on the texts and addresses it passes in. `Outcomes` and `Schedule` say the same
things once more without those functions: what comes of a packet is told from its octets and the
services, and when something is sent from the calls and timeouts of the run.

**Discovery results.** `Services.Join` is the declarative join: PTRs in order, each with the last SRV
of its instance and the last address of that host, complete ones only. The three in-place loops of
`from_answers` are proved to compute it, and `JoinExactly` says from the positions of the answers
which services these are.

## What the proofs found

* A server can discover itself. With two services on one interface, one of type `a`, instance `p.q`
  and port 80, the other of type `q`, instance `p` and port 81, both on host `h`, the server takes
  its own advertisement for another's service of type `a` on port 81 (`HearsItselfAt`, and
  `HearsItself` for every such pair): the type `q` is written as a pointer into the instance `p.q`,
  so that both instances read as `p.q.a`. What `handle_response` excludes are its own answers
  (`NeverItself`), not what its octets read as (`OwnPacketExactly`). Names that do not clash are
  safe (`FitOwnPacketIgnored`).
* A service whose host name equals its instance name, and is no suffix of its type, is advertised
  with a wrong host: receivers join it with the host `instance.type` (`HostNamedLikeInstance`).
* Four segments are a real limit. A request for e, d.e, c.d.e, b.c.d.e and a.b.c.d.e, the last of
  them twice, is rejected whole (`FiveSegmentsLost`).
* CHANGELOG.md:7 says that the writer cannot panic when the buffer is exhausted. `distance - 2`
  (src/dns/records.rs:137, src/dns/records.rs:203) still goes below zero, a panic in a checked build,
  exactly when the buffer ends before the last RDLENGTH reservation of a PTR or SRV record
  (`SerializeMessage`); it never does when the message fits (`ReserveFits`), and some buffer
  size does it for every message with such a record (`ReserveExists`).
* Comparing a label with text disagrees with comparing two labels on empty text and on a last dot
  (`SplitAgrees`).

## Model

| member | source | states |
|---|---|---|
| Names.SplitAgrees | src/dns/label.rs:407-425 | The two readings of a text, by `str::split` and by the label iterator, give the same segments if and only if the text is not empty and has no dot at its end. |
| Names.SplitExactly | src/dns/label.rs:407-425 | Splitting at dots, exactly: no piece has a dot, and with dots in between the pieces are the text again. |
| Names.ReceivedSplit | src/dns/label.rs:284-318 | A received name is compared by its wire segments one after the other, each split at its dots. |
| Names.LabelStrIter.Next | src/dns/label.rs:328-342 | One step of the text iterator gives the head of the segments that remain and leaves their tail. |
| Names.LabelRunIter.Next | src/dns/label.rs:284-318 | On whole segments, one step gives the head of the dot-split wire segments that remain, leaves the tail, meets no pointer octet and indexes nothing out of range. |
| Names.Iter | src/dns/label.rs:219-221 | Run to its end, the label iterator gives the segments of all the parts in order. |
| Names.LabelEq | src/dns/label.rs:401-405 | Labels are equal exactly when their segments are, however they are cut into parts, runs or texts. |
| Names.LabelEqStr | src/dns/label.rs:407-425 | A label equals a text exactly when its segments are the dot-separated pieces of the text. |
| LabelParser.DoParse | src/dns/label.rs:125-206 | The parsing loop ends on any input, stays within bounds, and adds to the part list exactly the runs of the specification, or fails when it fails. |
| LabelParser.FollowPointer | src/dns/label.rs:143-191 | The pointer branch closes the open run, refuses targets past the packet, self-pointers and a spent budget, and otherwise goes on at the target and resumes after the two pointer octets. |
| LabelParser.Parse | src/dns/label.rs:117-123 | Parsing with a budget of four pointers gives the specified label and rest. |
| LabelParser.ParseIsDecode | src/dns/label.rs:125-206 | On every input and packet the parser accepts exactly what the reference decompressor accepts, leaves the same octets, and keeps well-formed runs (whole segments, no pointer, a zero octet only at the very end) that hold exactly its segments. |
| Utf8Exact.Utf8Exactly | src/dns/label.rs:195-200 | The check on a segment passes exactly the octets that encode Unicode scalar values. |
| LabelParser.RunsAreDecoded | src/dns/label.rs:131-206 | The same from any point of the loop: the open run and the runs to come hold the segments read so far and those the reference still decodes. |
| LabelParser.RoomOnlyRejects | src/dns/label.rs:143-154 | A part list of limited size gives what a growing one gives, or rejects, and rejects exactly when the name needs more parts. |
| Writers.Writer.constructor | src/writer.rs:16-23 | A new writer holds nothing, has lost nothing and has an empty table. |
| Writers.Writer.Write | src/writer.rs:37-48 | The ideal grows by the octets; the buffer holds the ideal as long as it fits and an overflow is remembered for good. |
| Writers.Writer.WriteU8 | src/writer.rs:50-60 | The same for one octet. |
| Writers.Writer.Inc | src/writer.rs:62-71 | Skips octets without losing what was written before; overflows exactly when they do not fit. |
| Writers.Writer.FindLabel | src/writer.rs:73-75 | Finds the offset of the first entry with this text, or nothing when there is none. |
| Writers.Writer.PushLabel | src/writer.rs:77-81 | Adds the entry unless the table is full, which changes nothing. |
| Writers.Writer.Reserve | src/writer.rs:83-90 | The reservation covers the skipped octets, and stands at the end of what was written unless octets are lost. |
| Writers.Writer.WriteReservation | src/writer.rs:96-101 | Replaces exactly the reserved octets of the ideal, and of the buffer while nothing is lost; all others stay. |
| LabelWriter.SerializeStr | src/dns/label.rs:228-255 | The loop over a text appends to the ideal and the table what the specification emits: segments up to the first known suffix of a last part, then a pointer or the zero octet. |
| LabelWriter.SerializeRun | src/dns/label.rs:51-67 | A well-formed run is copied octet for octet, without meeting a pointer. |
| LabelWriter.SerializeLabel | src/dns/label.rs:208-217 | All the parts in order, only the last closing the name. |
| NameShape.ItemsShape | src/dns/label.rs:228-255 | A written name is the wire form of a first stretch of its segments and then a zero octet or a pointer, and the text found in the table spells the rest. |
| NameShape.StrTable | src/dns/label.rs:231-241 | Every entry a text adds denotes its own text followed by the later parts of the name, and stands where that stretch of segments starts. |
| NameShape.ItemsTable | src/dns/label.rs:231-241 | Every entry a whole name adds stands at one of the segments written in full and denotes the name from there on. |
| NameShape.ItemsHit | src/dns/label.rs:231-236 | A name's pointer leads to an older entry, or to one of an earlier part of the same name that denotes more than its text. |
| NameTrip.PointerIs | src/dns/label.rs:234 | The two octets of a pointer below 0x4000 are two ones and the fourteen bits of the offset. |
| NameTrip.LabelReads | src/dns/label.rs:228-255 | Table invariant: in any packet that holds the octets of a proper name without a pointer or with one to an earlier name, whatever stands elsewhere, the name reads as its full segments and what its pointer really leads to, with a known number of pointers and parts, and the table, old and new entries, still decodes to what it denotes. |
| NameTrip.LabelMeans | src/dns/label.rs:125-206 | Exactly what any proper name, clashing or not, is read as: what `Reading` tells from the names and the table, or nothing when its pointer leads into the name itself or takes more than four; the rest is exactly what follows. |
| NameTrip.LabelReturns | src/dns/label.rs:125-206 | A well-formed name is read back: same segments, rest exactly what follows, a known number of parts. |
| NameTrip.EmptyLost | src/dns/label.rs:242 | A name with an empty segment never comes back, even when what follows it is a pointer. |
| NameTrip.LongSegmentLost | src/dns/label.rs:242 | No input parses to a name with a segment of 64 octets or more. |
| NameTrip.LoopFails | src/dns/label.rs:157-191 | A pointer back into the name it ends is rejected with any budget. |
| NameTrip.PointerLost | src/dns/label.rs:231-236 | A name whose pointer leads to an entry that denotes another name, or that takes more than four pointers, does not come back. |
| NameTrip.LabelTrip | src/dns/label.rs:228-255 | Exactness at one name: with its pointer target below 0x4000, the name comes back if and only if its segments have 1 to 63 octets and the suffix found denotes itself within the pointer budget. |
| MessageTrip.QueryTrip | src/dns/query.rs:36-66 | A question comes back, with type and class, exactly when its name does, and the table stays true. |
| MessageTrip.RecordTrip | src/dns/records.rs:20-77 | Each of the five kinds of record comes back, exactly when the name in it does. |
| MessageTrip.AnswerTrip | src/dns/query.rs:113-143 | An answer comes back with name, type, class, time to live and record, exactly when its names do. |
| MessageTrip.MessageTrip | src/dns/mod.rs:26-52 | Round trip with compression: a message with proper fields and good names comes back from any packet that starts with its octets, leaving what followed; a message within 0x4000 octets comes back if and only if its names are good. |
| MessageTrip.TableStaysTrue | src/dns/label.rs:231-254 | After a whole message of good names, in any packet that starts with its octets, every entry stored on the way decodes to the name it denotes: no later write and no length filled in breaks one. |
| Readings.MessageReads | src/dns/reqres.rs:18-116 | What any written message of proper names within 0x4000 octets means to a receiver, names clashing or not: the parser gives what `ReadMessage` tells from the names, with the rest exact, or fails just when that tells nothing; and when it does not fail, an independent strict receiver reads the same from the same octets, and the whole table is true of the packet. |
| Readings.GoodIsFaithful | src/dns/label.rs:231-236 | Such a message satisfies the condition of the round trip if and only if every name in it reads as itself. |
| NoClash.HopBound | src/dns/label.rs:228-255 | When no suffix of a last part is a suffix of an earlier part, a name of n segments takes at most n pointers and max(n, 1) parts to read, and a pointer leads to an entry that means its text. |
| NoClash.FitLabel | src/server.rs:15-16 | Such a name of at most four segments is good whatever was written before, and keeps the table so. |
| NoClash.FitMessageReturns | src/dns/mod.rs:26-52 | A message of such names within 0x4000 octets comes back whole, whatever the table limit. |
| Witnesses.HostNamedLikeInstance | src/dns/label.rs:241 | For every type and instance text, a host named like the instance and no suffix of the type: the advertisement is accepted, does not come back, and is joined to the service on the host `instance.type`. |
| Witnesses.FiveSegmentsLost | src/dns/label.rs:121 | Five segments break the trip: for any five proper segments, a request that grows a name one segment at a time and repeats the last is rejected by the parser. |
| MessageIO.SerializePTR | src/dns/records.rs:134-143 | PTR with the length filled in afterwards is the specified octets; the subtraction goes below zero exactly when the buffer ends before the reservation. |
| MessageIO.SerializeSRV | src/dns/records.rs:194-205 | The same for SRV. |
| MessageIO.SerializeRecord | src/dns/records.rs:62-76 | The dispatch over the kinds of record appends the specified octets and table. |
| MessageIO.SerializeAnswer | src/dns/query.rs:135-142 | An answer appends the specified octets and table. |
| MessageIO.SerializeMessage | src/dns/mod.rs:45-52 | The buffer holds exactly the message's octets when it has room for them and fewer octets are reported when it has not; the subtraction on RDLENGTH goes below zero exactly when the buffer ends before the last reservation. |
| MessageIO.Questions | src/dns/reqres.rs:18-37 | The counted loop over questions reads what the specification reads, or fails with it. |
| MessageIO.Answers | src/dns/reqres.rs:62-100 | The counted loop over answers likewise. |
| MessageIO.Receive | src/dns/mod.rs:26-43 | The dispatch on the QR bit, over any input, gives what the specification of the parser gives; what that accepts is Acceptance.Accepted. |
| Acceptance.Accepted | src/dns/reqres.rs:18-100 | On every packet: it is accepted if and only if the layout of a message, read leniently, gives one, and then as that message, with what follows it left over; a query is read for its questions alone whatever its other counts say, a response for its questions and answers. |
| Received.MessageReceived | src/dns/reqres.rs:62-100 | Any accepted packet, of whatever octets, gives a message with proper fields and well-formed runs. |
| Canonical.SameOctets | src/dns/label.rs:51-67 | Received messages with the same wire form are written to the same octets whatever the table limit, and nothing is ever stored. |
| Canonical.PlainMessageReturns | src/dns/label.rs:51-67 | A received message written again is accepted whole, with the same wire form. |
| Canonical.Canonical | src/dns/reqres.rs:62-116 | For every accepted packet: written again it has no pointer, is accepted whole, means the same, and writing that again gives the same octets. |
| Capacity.CapsOnlyReject | src/server.rs:20-21 | Too small lists only reject: a packet is parsed as with growing lists or not at all, and is rejected exactly when its message has no room in the lists. |
| Capacity.FewPartsSuffice | src/server.rs:15-16 | A name of n segments without clashes is read back into a list of max(n, 1) parts. |
| Capacity.CompressionSaves | src/dns/label.rs:228-255 | A compressed message and as many octets more as it has pointers are no longer than the plain form: never longer, and shorter with every pointer. |
| Sizes.SerializeWithin | src/dns/reqres.rs:103-116 | Whatever the compression table does and however the names are stored, a message takes no more octets than its meaning: each name in full and a pointer. |
| Sizes.ShortServicesSize | src/service_info.rs:224-236 | The announcements of n services with names of at most four segments take at most 1611 n octets. |
| Capacity.ReserveFits | src/dns/records.rs:134-143 | The subtraction on RDLENGTH cannot go below zero in a buffer that holds the message. |
| Capacity.ReserveExists | src/dns/records.rs:194-205 | Every list of answers with a PTR or SRV has buffer sizes at which it does. |
| Framing.LengthIsTrue | src/dns/records.rs:134-143 | Below 65536 octets of RDATA, every RDLENGTH is the number of octets that follow it in its record. |
| Framing.SkipAnswers | src/writer.rs:83-101 | A walker that trusts every RDLENGTH (section 4.1.3 of RFC 1035) ends exactly where the answers end. |
| Framing.ResponseFraming | src/dns/records.rs:127-205 | After any number of answers, that walker and the parser, which ignores the lengths of PTR and SRV, stand at the same octet whenever the parser gets there, clashing names or not; and it does get there when the names are good. |
| Services.MakeStubs | src/service_info.rs:163-177 | The first loop makes one stub for each PTR, in order. |
| Services.MergeSrv | src/service_info.rs:179-189 | The in-place loops over SRV answers give every stub the host and port of the last one for its instance. |
| Services.MergeAddr | src/service_info.rs:191-212 | The in-place loops over addresses give every stub the last one of its host. |
| Services.FromAnswers | src/service_info.rs:159-222 | The three loops and the final filter compute the declarative join of the answers' meanings. |
| JoinExact.JoinExactly | src/service_info.rs:159-222 | The join, exactly: in the order of the PTRs, each service whose names are not empty, whose host and port are those of the last SRV of its instance, and whose address, not 0.0.0.0, is the last one of that host; nothing incomplete is in it, and no PTR that finds a service is left out. |
| JoinTheory.LastSrvIsLast | src/service_info.rs:179-189 | What the join takes for an instance is there exactly when an SRV matches, and is the one that no later match follows. |
| JoinTheory.LastAddrIsLast | src/service_info.rs:191-212 | The same for the address of a host. |
| JoinTheory.OrderBetweenKinds | src/service_info.rs:159-222 | Answer lists that agree on each kind of record, however interleaved, give the same services. |
| JoinTheory.JoinInverts | src/service_info.rs:159-222 | Any answers that announce complete services, distinct in instance and with one address per host, join to those services in PTR order, but for the netmask. |
| JoinTheory.AnnouncedServicesReturn | src/service_info.rs:224-236 | Joining the concatenated `as_answers` of such services returns them in order, with only the netmask replaced by the full mask. |
| ServerObject.Server.constructor | src/server.rs:133-174 | A new server, whether its services are made from texts or taken from a discovery, is in the starting state, which satisfies the invariant. |
| ServerObject.Server.Query | src/server.rs:192-221 | The target is added unless known, the interface unless listed, the next question is due at once, and nothing else changes. |
| ServerObject.Server.HandleTimeout | src/server.rs:242-274 | The state makes the specified step, the buffer receives the specified packet, and the invariant stays. |
| ServerObject.Server.DoAdvertise | src/server.rs:282-308 | Delivers the advertisement of all services of the interface and changes no field. |
| ServerObject.Server.DoQuery | src/server.rs:310-350 | Delivers a question for every service and target of the interface and takes one transaction id. |
| ServerObject.Server.CollectAnswers | src/server.rs:387-400 | The triple loop collects the deduplicated answers of the services asked for. |
| ServerObject.Server.HandleRequest | src/server.rs:365-437 | Delivers the specified reply, to the sender or to all, or the next timeout. |
| ServerObject.Server.IsMatching | src/server.rs:482-503 | The two loops decide whether a service is of a type of interest and not one of the server's own. |
| ServerObject.Server.HandleResponse | src/server.rs:439-462 | Reports the first matching service of the join, or the next timeout. |
| ServerObject.Server.HandlePacket | src/server.rs:352-363 | Any octets: a request, a response or nothing, as the specification of a packet says, with the fields unchanged. |
| Outcomes.RequestExactly | src/server.rs:365-437 | A packet that reads as a request, in any reachable state: the server replies if and only if there is a question, the id is not that of its own last one, and a PTR question names the type of a service in the sender's network; the reply has the id, flags 0x8400, the questions, and exactly the announcements of these services, none twice, from the first interface in the sender's network, to the sender for class IN and to all otherwise. |
| Outcomes.ResponseExactly | src/server.rs:439-503 | A packet that reads as a response: the server reports the service of the first PTR that finds one of a type it has or asks for and that is not one of its own, and waits if and only if there is none. |
| Outcomes.OthersIgnored | src/server.rs:352-363 | A packet that does not read as a message is ignored. |
| Outcomes.OwnQuestionIgnored | src/server.rs:375-378 | After a timeout that sent a question, its octets, from whatever address, and any other query with its id are ignored. |
| Outcomes.AdvertisementExactly | src/server.rs:282-308 | An advertisement has id 0, flags 0x8400, no questions, and service by service the four announcements of those whose address and netmask are the interface's, with their times to live and classes. |
| Outcomes.AskingExactly | src/server.rs:310-350 | A question has the next transaction id, flags 0x0100, and one PTR question of class IN for each service and then each target of the interface, in order. |
| Networks.NetworkBits | src/server.rs:465-480 | Two addresses are in one network exactly when they are of one kind with the mask and agree in every bit the mask has. |
| ServerInvariant.StartInv | src/server.rs:133-174 | The invariant holds at the start: interfaces without repetition and exactly those of services and targets, targets with non-empty types without repetition, indices in range. |
| Deduplication.StartInterfaces | src/server.rs:139-150 | A server starts with the interfaces of its services, each once, in the order of first occurrence. |
| ServerInvariant.QueriedInv | src/server.rs:192-221 | A call to `query`, even within a cycle, keeps it. |
| ServerInvariant.ReachableInv | src/server.rs:235-274 | It holds in every state of every interleaving of calls, timeouts and packets. |
| ServerInvariant.FacingFound | src/server.rs:419-426 | Whenever a reachable server has answers to give, one of its interfaces is in the sender's network: the `unwrap` cannot fail. |
| ServerRuns.Drain | src/server.rs:242-274 | Timeouts repeated at one moment send one packet for each interface left in each due cycle, advertisements first, at most two for each interface, and then ask to be woken strictly later. |
| ServerRuns.AdvertiseRate | src/server.rs:242-256 | In every run up to time t: no advertisement packet before 3000, and then at most n(1 + (t - 3000) / 15000) of them, n being the interfaces by then. |
| ServerRuns.QueryRate | src/server.rs:258-270 | In every run with time going forward, a question sent after C cycles and Q calls is not sent before 5000 + 19000 (C - Q). |
| ServerRuns.CyclesCover | src/server.rs:245-268 | In every run, the packets sent in the current cycle are one for each interface below its index, in order, each with all the services or questions of that interface and from its address; and the packet that ends a cycle is exactly the one that completes the whole list. |
| Schedule.AdvertisesExactly | src/server.rs:242-256 | In every run before the end of 64 bits, a timeout sends an advertisement if and only if there are services and it is due: 3000 after the start, and then 15000 after the moment that ended the last cycle. |
| Schedule.AsksExactly | src/server.rs:258-270 | It sends a question if and only if no advertisement is due, there is an interface, and the question is due: 5000 after the start, 19000 after the last cycle, and at the last timeout after a call to `query`. |
| Schedule.WaitExactly | src/server.rs:223-229 | The moment a server asks to be woken at is later than now, and the least at which a timeout sends a packet. |
| Schedule.QueriedExactly | src/server.rs:192-221 | A call to `query` in any reachable state adds the interface and the target at the end unless they are there, leaves all else, and makes the next timeout send a question unless it has an advertisement to send. |
| Schedule.IdsExactly | src/server.rs:276-280 | In every run the questions are numbered from 1 in 16 bits, and the server remembers the last number. |
| Schedule.TimeWraps | src/time.rs:46-48 | Past the last fifteen seconds of 64 bits, the packet that ends a cycle leaves the next one due at the same moment. |
| Deduplication.DedupIsFirsts | src/server.rs:393-397 | Comparing each answer with those collected lists the first occurrences of their meanings. |
| Deduplication.FirstsOrder | src/server.rs:393-397 | Of two collected answers, the earlier one was offered before the later one was offered at all. |
| Deduplication.AnsweringExact | src/server.rs:380-400 | The answers are in order of first occurrence, none twice, and an answer is among them exactly when it announces a service in the sender's network whose type some PTR question names. |
| Deduplication.AskingAgain | src/server.rs:380-400 | Repeating a question, with any class, anywhere after it was asked first, does not change the answers. |
| Discovery.NeverItself | src/server.rs:439-463 | For every list of services and every interface, the answers a server advertises there, taken as they are, leave nothing after joining and filtering by the same server. |
| Discovery.OwnPacketExactly | src/server.rs:439-503 | Its own advertisement heard as octets, for all services with proper names: the server ignores it if and only if the octets are rejected or nothing joined from what they read as is of a type it handles and not its own; otherwise it reports the first such service. |
| Discovery.OwnPacketIgnored | src/server.rs:482-503 | When all the names of its advertisement survive the trip, the octets give a timeout and no discovery, whatever their number. |
| Echo.FitOwnPacketIgnored | src/server.rs:482-503 | A server whose names have at most four segments and do not clash ignores its own advertisement, if the announcements of the interface stay within 0x4000 octets. |
| Echo.TenServicesIgnored | src/server.rs:482-503 | Ten such services on an interface always do. |
| Echo.HearsItself | src/dns/label.rs:231-241 | For every pair of services of one host, the first with an instance `p.q`, the second with type `q` and instance `p`, ports differing and `q` no suffix of the first type: the server reports its own advertisement as the first service on the port of the second. |
| Echo.HearsItselfAt | src/server.rs:439-503 | That at one input: type `a`, instances `p.q` and `p`, host `h`, ports 80 and 81. |
| Handshake.NewServiceFits | src/service_info.rs:38-58 | The conditions on names follow from conditions on the texts a service is made from. |
| Handshake.JoinOfFirsts | src/server.rs:393-397 | Deduplicating answers, which drops shared host addresses and repeated services, does not change what is joined: every service once, in order. |
| Handshake.AskedIsHandled | src/server.rs:310-350 | A server handles every service whose type it asked for. |
| Handshake.RequestAnswered | src/server.rs:365-437 | A request received as octets, with another transaction id and matching services in the sender's network, is answered with its id, its questions, the deduplicated answers and good names, from an interface in the sender's network. |
| Handshake.Discover | src/server.rs:310-463 | Two servers in any states, octet for octet, when the questions and the announcements of all services fit 0x4000 octets: the question of one, handled by the other, gives a reply which the first reports as the first service asked for that is not its own, with type, instance, host, address and port preserved and the full mask, or as nothing when all are its own. |
| Encounter.Meet | src/server.rs:192-463 | From fresh servers and conditions on texts and addresses alone: one calls `query` for the type of the other's service, its first timeout sends the question, the other replies to it directly, and the reply makes it report the service with type, instance, host, address and port as they were given. |

## Left out

- MessageTrip.MessageTrip: the converse is stated for messages of at most 0x4000 octets, because past that offset a pointer is written with its top bits lost and what it then leads to is up to the rest of the packet; the direct half has no such bound.
- Readings.MessageReads: names with a segment that is empty or longer than 63 octets, which section 2.3.4 of RFC 1035 excludes, never come back (NameTrip.LabelTrip), but what else is read from them is not stated: the length octet is then a zero or a pointer, the text after it is read as types, lengths and further records, and only the parser itself says what that gives.
- Discovery.OwnPacketExactly: stated for such proper names and within 0x4000 octets, for the same reasons.
- ServerRuns.AdvertiseRate: assumes that time additions do not wrap, as all run theorems do; the step functions themselves add modulo 2^64, as an unchecked build does, and what comes of that is Schedule.TimeWraps.
- MessageIO.SerializeMessage: for a message that does not fit, the number of octets reported is bounded but not stated exactly (it is where the first piece that did not fit would have stood); and the flag `underflow` stands for the panic of a checked build, while the server methods ignore it, as an unchecked build does, where the wrapped length is written nowhere because octets are lost already.
- ServerObject.Server.HandlePacket: a discovered service is compared by its segments, since the name stays borrowed from the packet.
- The kinds of parse error: every failure is `None`.
- Allocation: lists grow, as in the `alloc` configuration (src/vec.rs:31-41); limits on received lists, parts and the compression table are parameters of the codec, but the server is not modelled with fixed-size lists, nor are the panics of `heapless` on extension.
- Labels that mix received runs with text, and writing the empty default label: the codec and the server never make either.
- Equality of single label parts (src/dns/label.rs:364-380), which label equality does not use.
- The dispatch of `handle` on its input and the getters: one call each.
- DNS case folding: names are compared octet by octet, as the code does.
- Formatting, logging, `defmt`, sockets and the examples; a socket address is an IP address and a port.
- The library `nom`: its readers are functions from octets to an optional value and rest.

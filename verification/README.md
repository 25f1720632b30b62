# TwinSock, modelled and proved

TwinSock gives a Windows machine the sockets of a Unix host over one serial line. A Winsock DLL turns
each call into a message, `TWINSOCK.EXE` sends the messages of all programs over the line, and
`tshost` carries them out. This project models the parts of it that must be right for this to work,
in the form the C code has (loops, arrays, queues that change in place), and proves what they promise.

**The link** (`packet.c`).  `Scheduler` describes the sending side on values: packets on the line in
the order of their ids, a window of eight unacknowledged ones, one hold-back queue a stream, and
`SchedulerSteps` proves that every step keeps its invariant. `LinkSender`
has the mutually recursive queue procedures as they are, each proved to do what `Scheduler` says.
`WireOrder` proves what the order on the line promises, `SendOrder` what is sent again and when; `LinkReceiver` is the reorder buffer; `Session`
joins a sender and a receiver by a line that loses, repeats and reorders frames, proves that the peer's
requests are always a prefix of the messages, and `Recovery` that no packet is ever beyond repair.
`Crc`, `Frames`, `BitCoding` and `EscapeCoding` are the checksum, the incremental frame parser and the
line encodings, `Detection`, with the divisions of `Remainders`, says what damage the checksum notices, `Reception` their way through bad input, `LineReader` the decoder in use; `LinkEndpoint` is
a host with its sender, receiver, decoder, parser and timers. `Stack` carries two sessions, one each way, over
the line, and `TwoHosts` proves that two hosts so joined are two sessions in every run.

**Messages** (`tshost.c`, `winsock.c`, `commands.c`).  `Reassembly` cuts the byte stream back into
requests; `Requests` lays out a call, finds its arguments and drops one of them in place; `Calls` joins the
two: what is laid out is what is cut out, in any pieces and at the end of every session.

**The host's timers** (`tshost.c`).  `Timers`, which `LinkSender` and `LinkEndpoint` set and stop;
`Words` is the bits of a word, for these and for the bitmaps below.

**The proxy** (`twinsock.c`, `getsock.c`).  `SocketNumbers` is the bitmap allocator, `TailList` the
list with a tail pointer, `Proxy` the translation of ids and socket numbers and its theorems,
`TwinSock` the program that rewrites messages in place, `RequestIds` when 16-bit ids suffice.

**Socket queues** (`sockinfo.c`, `tshost.c`, `winsock.c`).  `SocketQueues`.

**DNS names** (`res_comp.c`).  `Names` is the text of a name, `Compression` section 4.1.4 of RFC 1035,
`ResComp` the four procedures on arrays, `NamesInMessages` what one of them reads of what another wrote.

Chars are bytes, `int` is unbounded, and 16-bit fields and wrap-arounds are written out. What the
environment decides (arrivals, timeouts, `sendto`'s answers, the host's numbers) is a parameter.

## Findings

- The user's guide (`twinsock.rtf`, lines 329-332) asks only that no substitute of an escaped character
  be CAN or a space, and lets the two ends differ. That is not enough: a character that is sent and also
  ignored is lost (`EscapeCoding.IgnoringSentCharactersLosesData`), and different offsets garble CAN
  (`EscapeCoding.DifferentOffsetsGarble`). `EscapeCoding.TransparentExactlyIfUsable` has the exact
  condition on the two ends' settings.
- Request ids on the link are 16 bits wide and handed out in turn, whatever is still under way. Two
  requests under way are enough for a reply to reach the wrong program
  (`RequestIds.FewRequestsAreNotEnough`). A reply goes by the entry of the request it answers exactly if
  no older request under way was made a multiple of 65536 requests before that one, and otherwise by the
  oldest such entry (`RequestIds.ReplyGoesRightExactlyIf`).
- `dn_comp` means to refuse two dots at the end of a name (`res_comp.c`, line 177), but takes `a..` for
  `a` (`Names.TwoTrailingDots`); a printed name may have two dots behind it and not three, the root one
  and not two (`Names.PrintedIsRead`).
- `dn_comp` leaves the failed name's offsets on its list exactly if all but the last pointer fitted
  (`res_comp.c`, line 148; `ResComp.DnComp`, `ResComp.FailureLeavesAnEntry`).
- `dn_expand` stores a byte beyond `length` exactly if `length` is 0 and pointers alone lead to the root
  name (`ResComp.DnExpand`, `ResComp.StoresOneByteTooMany`); of names, only the root is such a one
  (`ResComp.OnlyTheRoot`).
- In the escaping encodings an '@' that is left pending with no part of a frame behind it makes the next
  good frame unreadable, and no timer clears it: the receive timer does not run then, and the flush timer,
  which runs after a bad frame, forgets nothing. Once the line has been quiet for as long as timers run, all
  good frames come through again if and only if no such '@' is pending
  (`Reception.GoodFramesComeAgain`), which is so exactly if the input does not end in an odd number of '@'
  (`Reception.ReadyAfterPiece`). One stray '@' is enough (`Reception.StrayAtLosesAck`), and so is one behind a
  bad frame (`Reception.BadFrameLosesAck`). The bit encodings are always ready again.
- The checksum, half of a CRC-32, notices every change of a single bit of a good frame but for its length
  field (`Detection.BitIsNoticed`), yet not every change of a byte: five bits (0xF1) of the byte with 499 behind
  it go unnoticed in every frame of that length (`Detection.ByteGoesUnnoticed`). Whether a changed byte goes
  unnoticed depends on the bits and the number of bytes behind, and on nothing else
  (`Detection.ByteUnnoticedExactlyIf`). A single bit of the length can turn a good frame into a shorter
  good one (`Detection.LengthBitGoesUnnoticed`).

## Model

| member | source | states |
|---|---|---|
| Crc.TableDivides | packet.c:51-84 | every table entry is the remainder of its index, divided bit by bit by 0xedb88320 |
| Crc.UpdateDivides | packet.c:86 | one table step is eight bit-serial steps, for every byte and every register |
| Crc.CalcCRC | packet.c:88-101 | for data of any length, the complemented low 16 bits of the bit-serial division started at 0xffff |
| Crc.ChecksumDifference | packet.c:88-101 | the XOR of two checksums of equal-length data depends only on the XOR of the data |
| SchedulerSteps.PacketiseRun | packet.c:913-926 | a message becomes a run of packets of at most 512 bytes: leader first, trailer last, nothing else flagged (all but the last full: SchedulerSteps.OnlyLastIsShort) |
| WireOrder.StepKeepsQuiescent | packet.c:365-499 | every put, acknowledgement, timeout and flush keeps the sender's invariant, given next |
| SchedulerSteps.PutKeepsQuiescent | packet.c:444-466 | a put keeps it: at most 8 unacknowledged, list non-empty only if 8, line a sequence of whole messages, one unfinished message a stream, its bit set exactly then |
| SchedulerSteps.AckKeepsQuiescent | packet.c:406-436 | an acknowledgement keeps it, and releases at most the next held message of one stream, whole |
| WireOrder.FirstInFirstOut | packet.c:444-499 | in every run a stream's messages on the line, then those held, are the accepted ones in order |
| WireOrder.NothingLostWithoutFlush | packet.c:439-499 | for a stream never flushed these are all the messages put; the urgent stream cannot be flushed |
| WireOrder.EveryRunIsFair | packet.c:450-460 | in every run, between a message that had to wait and the previous one of its stream no other ordinary stream has two messages |
| SendOrder.WindowIsInOrder | packet.c:365-436 | in every run at most eight packets are unacknowledged, exactly eight while any wait, and they stand in the order of their last transmission |
| SendOrder.SkippedAreSentAgain | packet.c:406-436 | an acknowledgement has every packet sent before the acknowledged one sent again, once and in order, then the next one waiting |
| LinkSender.Sender.InitHead | packet.c:377-388 | the head of the list gets the next id and its checksum, and it had none before |
| LinkSender.Sender.TransmitHead | packet.c:390-404 | with room in the window the head moves to ppqSent, is popped and sent, and the next head is prepared; otherwise nothing |
| LinkSender.Sender.PoppedPacket | packet.c:468-499 | popping a trailer moves exactly one held message, or frees the stream, as Scheduler.Pop says |
| LinkSender.Sender.PutInQueue | packet.c:444-466 | the packet goes on the line or is held, exactly as Scheduler.PutPacket says |
| LinkSender.Sender.PacketTransmitData | packet.c:913-926 | the queues and the frames sent afterwards are those of Scheduler.Put; the invariant and the armed timer are kept |
| LinkSender.Sender.AckReceived | packet.c:406-436 | resends what stands before the acknowledged packet, frees it, fills the window: Scheduler.Ack; unknown ids change nothing |
| LinkSender.Sender.TimeoutReceived | packet.c:365-375 | every unacknowledged packet is sent again, in order, and the timer is armed if there was one |
| LinkEndpoint.Endpoint.CheckTimers | tshost.c:406-425 | each timer that runs and whose time has passed, in microseconds, fires, and none before its time: what is unacknowledged is sent again, a partial frame and what the decoder has pending are dropped, flushing ends; less than ten seconds after the send timer was set, and 1500 ms after the others, nothing changes; if all that run are due, what is left is Reception.Quiet |
| LinkEndpoint.Endpoint.FlushInput | tshost.c:479-484 | input is thrown away until 1500 ms after the last of it came in |
| LinkSender.Sender.TransmitPacket | packet.c:319-324 | a frame is transmitted, and the send timer is due ten seconds after this one, however often it was set before |
| LinkEndpoint.Endpoint.TimersRunExactlyWhileNeeded | tshost.c:310-332 | no stall: between calls the send timer runs exactly while something is unacknowledged, the receive timer while part of a frame is in, the flush timer while input is thrown away; these two never both run |
| LinkEndpoint.Endpoint.FireTimer | tshost.c:340-356 | one timer's handler, on decoder, parser and sender, with the other two timers as they were |
| LinkEndpoint.Endpoint.InputArrives | tshost.c:217-226 | while flushing nothing changes but the flush timer; otherwise the input is decoded and parsed, and the frames that Reception finds are dispatched |
| LinkEndpoint.Endpoint.PacketReceiveData | packet.c:719-909 | exactly five CANs in a row end the program; else the endpoint hears what Reception.Hear says and dispatches what it finds |
| Bytes.FiveExactlyIf | packet.c:771-781 | counting as the decoders do finds five CANs in a row exactly if there are five in a row |
| LineReader.Reader.PacketReceiveData | packet.c:746-909 | in every encoding the output and what stays pending are those of Reception, and the CANs in a row are counted |
| LinkEndpoint.Endpoint.PacketTransmitData | packet.c:913-926 | a message put at an endpoint keeps all its timers right |
| Timers.HostTimers.SetTimer | tshost.c:427-442 | that timer is due exactly so many milliseconds from now; the others are as before |
| Timers.HostTimers.SetTransmitTimeout | tshost.c:310-315 | ten seconds from what the clock shows, and the other two timers untouched |
| Timers.HostTimers.KillTimer | tshost.c:444-447 | that timer stops; the others are as before |
| Timers.HostTimers.GetNextExpiry | tshost.c:358-404 | select sleeps for ever exactly if no timer runs, else until the first is due, but at least 100 microseconds |
| Timers.BeforeExactlyIfEarlier | tshost.c:417-419 | the comparison of times is right but at one instant, for a stored million microseconds |
| LinkSender.Sender.SendTimerFires | tshost.c:406-425 | stopping the send timer and resending keeps the invariant: it runs exactly if something is unacknowledged; the other timers are as before |
| LinkSender.Sender.RestartTimer | packet.c:704-711 | what a bad frame does to the timer keeps it armed exactly if something is unacknowledged |
| LinkSender.Sender.NakReceived | packet.c:680-684 | no effect, since a non-empty list means a full window |
| LinkSender.Sender.FlushStream | packet.c:439-442 | the held messages of the stream are gone, all else is as before |
| LinkReceiver.DrainsToGap | packet.c:345-361 | draining stops at the least id that has not come in, hands on every packet before it in order, and keeps the rest |
| LinkReceiver.Receiver.InsertIntoIncoming | packet.c:326-363 | the sorted buffer and what is handed on are those of Accept; duplicates change nothing |
| Reassembly.Reassembler.DataReceived | tshost.c:500-553 | the requests handed on and the bytes kept are what cutting the old bytes and the new ones yields |
| Reassembly.FeedIsRequests | tshost.c:500-553 | how the stream is cut into calls does not matter |
| Reassembly.CutsPrefix | tshost.c:530-551 | of a prefix of concatenated messages exactly the complete ones are cut out, and the rest is part of the next |
| Calls.WellFormedExactlyIf | tshost.c:520-530 | what the receiver takes for a message is exactly a ten-byte header, high bytes first, whose third field is the whole length, with what follows |
| Calls.CallsAreCut | tshost.c:500-553 | calls and replies as they are laid out, joined and delivered in any pieces: exactly these are cut out, and nothing is left |
| Calls.CompressedIsCall | commands.c:554-586 | what CompressArg leaves is again such a message, with one argument empty and the length right |
| Calls.EnvelopesArrive | tshost.c:500-553 | in every session in which messages so laid out are put, those cut out at the other end are the first of them, byte for byte |
| Calls.SocketIsRead | twinsock.c:879-884 | in a call as it is laid out, with a socket of either width as its first argument, the proxy reads that socket |
| Session.StepKeepsSound | packet.c:326-436 | whatever is lost, repeated or reordered: each packet that left the list is unacknowledged or has arrived, and only arrivals are acknowledged |
| Session.EndToEnd | packet.c:326-361 | in every run the peer's requests are exactly the first messages of the wire order, each once, byte for byte, and what is pending is part of the next |
| Session.LineCarriesMessages | packet.c:913-926 | the payloads of the packets, joined, are the messages, joined |
| Recovery.OneGoodRoundRepairs | packet.c:365-375 | from every reachable state one timeout whose frames arrive empties the reorder buffer, hands on all packets popped and acknowledges them |
| Recovery.EverythingCanBeDelivered | packet.c:365-436 | from every reachable state timeouts and arrivals alone can get every accepted message handed on and acknowledged |
| Frames.FrameParser.ProcessData | packet.c:606-717 | the frames found and the bytes kept are those of Parse on the kept and the new bytes |
| Frames.FrameByFrame | packet.c:634-715 | on the bytes: more than 512 announced, or less than none, flushes; an incomplete frame is kept; a complete one is found, with its id, type and data, if and only if bytes 4 and 5 are the complemented low half of the bitwise division of the frame with these two zero, and otherwise the input is flushed |
| Detection.UnnoticedExactlyIf | packet.c:666-713 | a good frame with any bytes but its length changed is taken for a good one if and only if its checksum field is the old checksum XOR the low half of the divided difference, and otherwise flushes the input |
| Detection.ByteUnnoticedExactlyIf | packet.c:666-713 | for one byte the condition is on the bits changed and the number of bytes behind alone; a changed checksum byte is always noticed |
| Detection.BitIsNoticed | packet.c:666-713 | a change of one bit outside the length is always noticed |
| Detection.ByteGoesUnnoticed | packet.c:88-101 | 0xF1 in the byte with 499 behind it never is |
| Detection.LengthBitGoesUnnoticed | packet.c:634-669 | a good frame that one bit of its length makes a shorter good frame |
| Remainders.BitIsSeen | packet.c:88-101 | a single bit with up to 519 octets of zero behind it never leaves the sent half of the register empty |
| Frames.PiecesDoNotMatter | packet.c:606-717 | for any bytes at all, parsing them in pieces is parsing them at once |
| Frames.GoodFramesComeThrough | packet.c:606-717 | any good frames, empty ones included, in any pieces: exactly these are found, and nothing is left |
| Reception.GoodFramesAreFound | packet.c:606-907 | any good frames, encoded, in any pieces, decoded piece by piece and parsed chunk by chunk: exactly these are found and nothing is pending |
| Reception.GoodFramesComeAgain | packet.c:739-744 | whatever came in before, once the timer that runs, if one does, has fired: all good frames in all pieces are found, all and only these, if and only if it is not an escaping encoding with an '@' pending and no part of a frame in |
| Reception.ReadyAfterPiece | packet.c:695-717 | the same of the input: exactly if part of a frame is left or the piece does not end in an odd number of '@'; a bad frame leaves no part |
| Reception.LostBehindAt | packet.c:825-907 | behind a pending '@' a good frame is lost, however cut up and whatever follows, except exactly if each of its bytes is sent as two '@' |
| Reception.StrayAtLosesAck | packet.c:848-851 | one '@' on an idle line: no timer runs, and the next acknowledgement, whichever, is not found |
| Reception.BadFrameLosesAck | packet.c:639-653 | nine characters: a frame of insane length and an '@'; flushing ends, the '@' stays, the next acknowledgement is not found |
| Reception.NoCanOnLine | packet.c:155-317 | good frames never contain the CAN of which five end the program |
| Frames.FoundFirst | packet.c:606-717 | a good frame is the first one found if and only if the stream starts with its bytes |
| EscapeCoding.GarbledBehindAt | packet.c:836-851 | behind a pending '@' data are read as themselves if and only if every byte's encoding is two '@' |
| EscapeCoding.PendingExactlyIf | packet.c:825-907 | an '@' is pending after any input exactly if the characters not ignored end in an odd number of '@', a pending one counted if there is nothing else |
| Reception.HearsAsFed | packet.c:719-909 | decoder and parser in step, piece by piece, are the parser on the decoded chunks, up to the first bad frame |
| LinkEndpoint.Endpoint.ProcessData | packet.c:606-717 | the whole endpoint after any bytes is the one that DispatchAll gives for the frames in them; part of a frame sets the receive timer, a bad frame starts flushing and sets the send timer anew if packets wait, a shutdown frame ends it |
| LinkEndpoint.Endpoint.DispatchFrame | packet.c:671-693 | a data frame is acknowledged and inserted, an acknowledgement reaches the sender, each as on values |
| LinkEndpoint.ShutdownEndsIt | packet.c:690-692 | a frame of type 3 ends the program: those before it are dispatched, those behind it not; no other type does |
| BitCoding.RoundTrip | packet.c:174-227 | in the 6-bit and 7-bit modes decoding undoes encoding, from any decoder state, with no byte too many |
| BitCoding.PaddingFits | packet.c:174-192 | the output is long enough for every bit, the padding shorter than a byte, and there are at most 2n+1 characters |
| BitCoding.LineIsTransparent | packet.c:719-823 | any strings, encoded one after the other, in any pieces, come out unchanged |
| BitCoding.OnlyAlphabetIsSent | packet.c:155-227 | only '@', letters, digits, '.' and '/' are sent, in E_6Bit none with the high bit |
| BitCoding.NoiseIsIgnored | packet.c:757-820 | characters outside that alphabet, wherever they come in, change nothing that is heard |
| BitCoding.TransmitData | packet.c:155-227 | the shifting loop yields exactly that encoding |
| BitCoding.LineDecoder.PacketReceiveData | packet.c:719-823 | the shifting loop yields exactly what is heard, no more bytes than characters, and keeps the partial byte |
| EscapeCoding.TransparentExactlyIfUsable | packet.c:229-312 | a sender's and a receiver's settings carry every byte string if and only if the offsets agree modulo 256, nothing sent is ignored and no substitute is a space |
| EscapeCoding.FixedModesAreUsable | packet.c:229-268 | E_8Bit, E_8NoCtrl, E_8NoX and E_8NoHiX do |
| EscapeCoding.IgnoringSentCharactersLosesData | twinsock.rtf:329-332 | settings that meet the guide's condition and lose a byte |
| EscapeCoding.DifferentOffsetsGarble | twinsock.rtf:332 | two ends each usable with itself that garble CAN together |
| EscapeCoding.NothingForbiddenIsSent | packet.c:229-268 | no character the mode avoids is ever sent |
| EscapeCoding.FixedSubstitutes | packet.c:270-308 | in the fixed modes '@' becomes '@' and a space, what the mode avoids '@' and the character 64 further on, all else itself |
| EscapeCoding.IgnoredIsIgnored | packet.c:825-847 | ignored characters, wherever they come in, change nothing that is decoded |
| EscapeCoding.LineIsTransparent | packet.c:825-907 | from the reset state, in any pieces, the data come through |
| EscapeCoding.TransmitData | packet.c:229-317 | the loop yields exactly that encoding |
| EscapeCoding.EscapeDecoder.PacketReceiveData | packet.c:825-907 | the loop yields exactly what is decoded, and keeps a pending escape |
| Stack.LineCarriesBothSessions | packet.c:592-907 | data frames of one session and acknowledgements of the other, any that were transmitted, encoded, cut up, decoded, parsed and dispatched, do what their arrivals do in the two sessions |
| TwoHosts.RunsAreSessions | packet.c:326-436 | two hosts, each sending and receiving in any encodings: every run, whatever is put, resent, lost, repeated, reordered and cut up, is a run of one session each way |
| TwoHosts.BothEndToEnd | packet.c:326-361 | in every such run the requests each host cuts out are the first messages of the other's, each once, byte for byte |
| TwoHosts.BothCanBeDelivered | packet.c:365-436 | from every state they can reach, resending and arrivals alone can get every accepted message of both hosts handed on and acknowledged |
| Stack.TransmittedFits | packet.c:563-604 | in sessions of at most 32768 packets every frame transmitted has a good id and at most 512 bytes |
| Names.NameIsGood | res_comp.c:160-188 | the labels read from a text have 1 to 63 bytes, none NUL |
| Names.PrintedIsRead | res_comp.c:56-104 | what dn_expand prints for labels without backslashes reads back as these labels, with so many trailing dots and not more |
| Names.TwoTrailingDots | res_comp.c:177-181 | `a..` is taken for `a` |
| Names.MatchIsName | res_comp.c:241-274 | a text that matches labels is read as exactly these labels |
| Compression.FirstMatch | res_comp.c:241-275 | what is found is on the list and spelled by the text; if nothing is, no entry is |
| Compression.CompressedSpells | res_comp.c:144-195 | whatever the list holds, what is written spells the labels of the text, pointers lead only to names before it, and new entries are good |
| Compression.Build | res_comp.c:122-196 | every name put in a message, names sharing tails, reads back at its offset from the finished message |
| Compression.PlainNamesComeBack | res_comp.c:122-196 | a printed name without backslashes, with the trailing dots that are read, comes back as itself |
| Compression.ListedNamesAreFound | res_comp.c:241-275 | a listed name without backslashes is found when its print is searched, trailing dot or not |
| Compression.RepeatedIsPointer | res_comp.c:144-152 | a plain name that is put in a message a second time takes two bytes |
| Compression.NamesEnd | res_comp.c:58-104 | a name's bytes end within the message, and both readers refuse a length byte from 64 to 191 |
| Compression.CompressedEnds | res_comp.c:201-224 | what a reader skips is exactly what was written |
| ResComp.DnExpand | res_comp.c:41-108 | ends on any bytes; succeeds on a name exactly if it fits or is the root, prints it, never reports a loop, consumes what dn_skipname does; stores beyond `length` exactly if that is 0 and the name leads to the root |
| ResComp.OnlyTheRoot | res_comp.c:58-104 | of names only the root leads to the root by pointers alone |
| ResComp.StoresOneByteTooMany | res_comp.c:104 | a message for which a byte beyond `length` is stored |
| ResComp.DnSkipname | res_comp.c:201-224 | the size of the name's bytes, or -1 |
| ResComp.DnFind | res_comp.c:232-276 | the first listed name that the text spells, or -1 |
| ResComp.MatchName | res_comp.c:242-273 | pointers are followed, and the answer is whether the name is what the text spells |
| ResComp.DnComp | res_comp.c:122-196 | succeeds exactly if the compressed form exists and fits; then it is written, the list extended, no other byte touched; on failure the list is longer exactly if all but the last pointer fitted |
| ResComp.FailureLeavesAnEntry | res_comp.c:148-149 | a call that fails and leaves an offset on the list |
| NamesInMessages.WriteMessage | res_mkq.c:65-114 | successive calls of dn_comp and other data make, in the buffer and on the list, the message that Compression.Build describes, exactly if there is one and it fits |
| NamesInMessages.WriteAndExpand | res_comp.c:41-196 | of any message so made, dn_expand prints at each name's offset the labels dn_comp read in its text, exactly if they fit, and consumes what dn_comp wrote |
| ResComp.CopyText | res_comp.c:161-176 | a label's characters with backslashes resolved, or failure exactly if they do not fit |
| SocketNumbers.GetNewSocket | getsock.c:39-57 | the lowest free number, now taken, or -1 exactly if none is free |
| Words.BitChanges | getsock.c:47-51 | setting or clearing a bit changes that bit alone |
| SocketNumbers.Allocator.GetClientSocket | getsock.c:59-70 | the lowest free even number; odd numbers are untouched |
| SocketNumbers.Allocator.GetServerSocket | getsock.c:72-83 | the lowest free odd number; even numbers are untouched |
| SocketNumbers.Allocator.ReleaseClientSocket | getsock.c:97-101 | that number is free, the others are as before |
| SocketNumbers.Allocator.ReleaseServerSocket | getsock.c:103-107 | that number is free, the others are as before |
| TailList.List.Append | twinsock.c:853-854 | the element is last, the tail pointer right |
| TailList.List.Remove | twinsock.c:963-974 | the first match is gone, the others keep their order, the tail pointer is right even if the last was removed |
| Proxy.StepKeepsConsistent | twinsock.c:836-1022 | every step keeps link socket numbers and each program's socket numbers unique, and even numbers reserved in the bitmap |
| Proxy.RepliesComeBack | twinsock.c:836-1022 | whatever happens in between, a reply reaches the program that asked, with its own id and socket number, if no older holder of the id waits; it takes just that request off the list |
| Proxy.NumbersAreNotLost | twinsock.c:864-877 | after any run the bitmap holds exactly the numbers of the open sockets of the conversations' own, so a new socket gets the lowest free even number whenever fewer than 256 are open |
| Proxy.ClosedIsFree | twinsock.c:999-1019 | after the reply to a close no entry has the socket, its number is free, and every other socket stays |
| Proxy.SocketCallsAreTranslated | getsock.c:114-137 | of all calls those numbered 2 to 15 but for 8 bear the link's socket number instead of the conversation's; in the others only the id changes |
| Proxy.DataComesThrough | twinsock.c:905-949 | data reach the owner of the socket under the number it knows; so does a new connection, which is then known |
| Proxy.HostDataArrive | commands.c:1071-1097 | a message built by SendSocketData for an open socket reaches its owner, the same but for the owner's number |
| Proxy.NewConnectionArrives | twinsock.c:926-947 | so does a new connection, and its number, two bytes or four, is known for the same owner from then on |
| Proxy.OnlyNumbersChange | twinsock.c:893-896 | both ways translation leaves every byte alone but the id and, of a socket argument, its two or four bytes |
| Proxy.TranslatedIsWhole | twinsock.c:968-992 | a reply keeps its size and function; it bears the sender's id and socket number |
| TwinSock.Program.ResponseReceived | twinsock.c:836-903 | the lists and the message rewritten in place are Asked's and Sent's |
| TwinSock.Program.AdjustRequestIn | twinsock.c:951-1022 | the lists, the rewritten message and the receiver are Replied's |
| TwinSock.Program.AdjustDataIn | twinsock.c:905-949 | the lists, the rewritten message and the receiver are DataCame's |
| RequestIds.ReplyGoesToOldest | twinsock.c:962-974 | a reply takes the oldest request under way whose serial number is the answered one's modulo 65536, and goes to its program under its id |
| RequestIds.FewRequestsAreNotEnough | twinsock.c:850 | a run with never more than two requests under way in which a reply goes to the wrong program |
| RequestIds.ReplyGoesRightExactlyIf | twinsock.c:962-974 | in every run, collisions or not, a reply goes by its own request's entry if and only if no older request under way was made a multiple of 65536 requests before it |
| Requests.TransmitFunction | winsock.c:566-610 | the message has the header, and the arguments and the result one after the other in network order |
| Requests.ArgumentsArrive | winsock.c:566-610 | the host finds each argument's type, length and value, and an echo gives the caller its own values back |
| Requests.ValuesArrive | winsock.c:107-135 | the arguments and the result lie one after the other, each with type and length; an integer, by value or by reference, is high byte first the number that the caller's bytes are low byte first; characters and blocks are the same bytes |
| Requests.GetArguments | commands.c:649-680 | each field found describes its argument's type, length and place |
| Requests.BodyOfParse | commands.c:663-676 | what parses is a layout of what was found |
| Requests.CompressArg | commands.c:554-586 | moved down over itself, the message lays out the same arguments, one of them empty; the length is exact |
| Requests.CompressedParses | commands.c:554-586 | it parses to the same arguments and result but for that one |
| SocketQueues.NothingIsLostSending | tshost.c:555-599 | whatever sendto answers, accepted bytes and queued bytes are what was queued, in order, each to its own address, and as many are accepted as sendto said |
| SocketQueues.QueuesAreServed | tshost.c:597-598 | while anything is queued and no write has failed for good, select watches the socket |
| SocketQueues.NeverWatchedIdly | tshost.c:238-242 | and select never watches a socket that nothing is queued for |
| SocketQueues.SocketEntry.QueueSendRequest | sockinfo.c:122-156 | the block is last, and is tried at once exactly if it is first |
| SocketQueues.SocketEntry.WriteSocketData | tshost.c:555-599 | a partial write advances the first block, a whole one removes it, an error keeps it |
| SocketQueues.NothingIsLostReceiving | winsock.c:1461-1482 | returned bytes and unread bytes are exactly what arrived while there was memory, in order, each with its address |
| SocketQueues.PerSocket.RecvFrom | winsock.c:1461-1485 | as much of the first block as there is room for; the rest of the buffer is untouched |
| SocketQueues.PerSocket.FunctionReceived | winsock.c:300-343 | the block is last; without memory for it the data are lost or read as an end |

## Left out

- Session.EndToEnd: one sender and one receiver; `TwoHosts` has both directions.
- TwoHosts.BothEndToEnd: what comes in at a host is frames that were transmitted to it; bad input in between is
  loss there, and itself in `Reception`. While input is thrown away output is too (`tshost.c`, line 463): loss again.
- TwoHosts.BothCanBeDelivered: at most 32768 packets were accepted each way, as ids allow.
- Reception.GoodFramesComeAgain: five CANs in a row end the program; `Reception` goes on.
- Session restart: `ReInitPackets` (`packet.c`, line 929) sets the sequence numbers back but keeps the
  window; everything holds within one session.
- LinkEndpoint.Endpoint.ProcessData: ids stay below 32768, since on the host an unsigned id is compared
  with a signed one and wrap-around does not work.
- SchedulerSteps.PutKeepsQuiescent: streams are -2 to 254, the ones the bit array and the queues have room for.
- Garbled frames: a frame that fails its checksum is a lost frame in `Session`; one that passes by chance
  is not modelled. The dropping of input after a bad frame is ordinary loss too.
- LinkSender.Sender.PoppedPacket: linked queues are sequences and the stream bits a set; memory is not modelled.
- LinkEndpoint.Endpoint.CheckTimers: what the clock shows is a parameter.
- LinkEndpoint.Endpoint.PacketReceiveData: the program ends after the piece with the fifth CAN is decoded, not in
  the middle of it; nothing of the piece is dispatched either way.
- NamesInMessages.WriteMessage: the fields of the header and of records are data whose bytes the caller gives.
- LinkEndpoint.Endpoint.DispatchFrame: the client, unlike the host, goes on after a shutdown frame, in a new
  session.
- E_Explicit's settings parser, the start-up handshake, dialogs, DDE, the terminal and the comm port: input and output.
- Reassembly.Reassembler.DataReceived: messages have 10 to 32767 bytes, as every sender makes them; it also
  stands for `twinsock.c`, lines 1036-1109, which reads the stream the same way.
- ResComp.DnExpand: the byte just after the message can be read (`res_comp.c`, line 87 does not look).
- ResComp.DnComp: the message before the name has at most 16384 bytes, since a pointer has 14 bits; a list
  whose message pointer is NULL is as good as none and is not modelled.
- Compression.Build: appends that fail end the run; what dn_comp does then is in ResComp.DnComp.
- Proxy.RepliesComeBack: programs open no socket twice and use only open ones, at most 256 of their own
  at a time, the host's numbers for new connections are odd and new, and replies are not cut to the header.
- Proxy.SocketOf: `int` has 16 bits, as in the Windows build; a negative two-byte socket differs in the 32-bit build.
- Requests.TransmitFunction: integers have the width of their type, as the DLL's own macro sets it.
- Requests.CompressArg: the argument list and the result are one array with the result last.
- SocketQueues.SocketEntry.WriteSocketData: without an address `sendto` is called with four arguments; it is
  taken to do what `send` does. What sendto answers is a parameter.
- SocketQueues.PerSocket.RecvFrom: the wait for the first block.
- SocketQueues.PerSocket.FunctionReceived: sockets that are not open, and listening sockets, whose queue holds
  new sockets instead of bytes.
- Host commands, name servers' answers, the copiers of host entries, scripts and settings: tables and calls to the system.

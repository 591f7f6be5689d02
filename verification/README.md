# A verified model of the trading gateway

The gateway connects a trading process to exchanges. This project models its protocol parts in Dafny 4.11 and proves
what they keep over every run: the hand-written TCP client and the layered WebSocket client on top of it, the packet
forwarding loop, the asynchronous reconnecting client with its subscriptions and its incoming queue, the wire formats,
and the order books. `dafny verify dfyconfig.toml` checks everything.

## How the model is built

Code that changes things step by step is modelled twice. A class has the source's fields and methods, and every method
is proved to do exactly what a transition function on values says. Lemmas are then about the transition functions:
what one step keeps, and, by induction, what every run keeps. A run is any sequence of public calls, handlers and
packets; a packet is any byte string. Whatever the program cannot know is a parameter, called an oracle where it
answers questions: allocation and checksum results, the results of the TLS library, what the NICs offer and take,
whether a ring has room, which handler runs next and with which result. History variables are ghost fields or extra
fields of the run's state.

Bytes are integers from 0 to 255, and words are integers with their wrap-around written out. Masks and shifts of single
bytes are written as remainders and quotients, exclusive or as a bit-by-bit function.

| file | contents |
|---|---|
| `Bits.dfy`, `Words.dfy`, `Buffers.dfy`, `Subsequences.dfy` | words, network byte order, exclusive or and bit masks against the machine's bit vectors, copying in place, subsequences |
| `Packet.dfy`, `PacketWriter.dfy` | Ethernet/IPv4/TCP packets: parser, round trip, writing in place |
| `MicroTcp.dfy` | the TCP client: transition functions and class |
| `TcpRuns.dfy`, `TcpSafety.dfy` | all runs of it: accounting, tiling, receive safety, window, full buffer, end to end |
| `TcpAnswers.dfy` | what it answers to every packet, and its state as a function of the packets so far |
| `TlsRecords.dfy`, `TlsOutput.dfy` | record slicing, the output of the TLS library and its drains |
| `WebSocketClient.dfy`, `WebSocketRuns.dfy`, `WebSocketOutput.dfy` | the layered client, all its runs, and what becomes of the output in them |
| `WebSocketExact.dfy` | each of its variables after each call, and the TLS errors over whole runs |
| `WsFrame.dfy` | WebSocket frames: both encoders and the decoder |
| `Forwarding.dfy` | the forwarding loop with reference counts |
| `Backoff.dfy`, `Reconnect.dfy`, `Session.dfy` | retry delays, the reconnecting client, subscriptions over it |
| `ReconnectRuns.dfy` | the reconnecting client field by field, and its retry counter from the history |
| `IncomingQueue.dfy` | the bounded queue under interleaving |
| `OrderBook.dfy`, `UdpFeed.dfy` | order books and the binary feed |

## What holds, and where it stops

- **Receive safety.** For a stream shorter than 2^32 bytes the bytes kept are always its first bytes without those
  that met a full buffer, in order and wrap included (`ReceivePrefix`); if none did, they are a prefix of it. Over all
  runs without such a loss the prefix holds exactly for streams of that size (`PrefixSafetyExact`).
- **Acknowledgements.** In a run whose allocations are granted nothing accepted stays unacknowledged: the last segment
  emitted acknowledges every data byte and FIN taken (`LatestAcks`). `AnswerExact` lists the answers to any segment in
  any state, failed allocations included; the state itself is told from the calls and packets so far (`StateExact`).
- **The full buffer.** Data that meets it is acknowledged and not stored. Over all runs nothing is lost exactly if the
  whole stream fits the buffer (`NothingLostExact`); `GapRun` is a run, for every stream longer by two bytes or
  more, in which a byte is skipped. When the WebSocket client drives the machine the buffer is never full, with any
  packets (`NeverFull`), so what it drains is a prefix without any such assumption (`DrainedPrefix`,
  `EndToEndDrained`).
- **The peer's FIN** is counted without a look at its number. At its arrival the stream is complete, and rcv_nxt right,
  exactly if nothing before it was missing (`FinExact`); afterwards no byte is kept any more, so reordering alone can
  lose the whole stream (`EarlyFin`).
- **What TLS is given** is another matter. Each packet is cut into records on its own; a rest is dropped, against the
  comments in src/modules/network/websocket_client.cpp:128-136 and :162-169 that speak of keeping it. `FedExact` says
  exactly when no drained byte is missing in front of one that is fed; `SplitRecordSkips` is a run with a record cut
  in two.
- **The plain comparisons.** `<` on sequence numbers tells old data from new exactly if both offsets lie on the same
  side of the wrap (`ReAckExact`; in `DuplicateUnanswered` a repeated byte stays unanswered). iss < snd_una <= snd_nxt
  holds while the numbers sent have not wrapped, and for less than 2^32 bytes sent only then (`WindowExact`;
  `WindowWraps` is a run with an honest peer where it fails).
- **Packet round trip** holds exactly up to 65481 payload bytes. Longer payloads, which `send_data` accepts, wrap the
  16-bit length and are always discarded by the parser, although their sequence numbers are used up.
- **What is accepted.** `ReceiveExact` says, byte by byte, which packets are taken as segments of the connection: IPv4
  and TCP options and trailing padding are allowed, as the code does. `SegmentRead` says what is read from them.
- **What the client sends.** `TlsSocket::encrypt` (src/modules/network/tls_socket.cpp:84) leaves its output in the
  library, and the vector passed to `send_data` stays empty, so a frame becomes an empty segment that uses no sequence
  number; `send_text_message` (src/modules/network/websocket_client.cpp:350) copies an empty range besides and hands
  out nothing. While a client is in WS_HANDSHAKE_SENT or WS_CONNECTED no call and no packet uses a sequence number
  (`ConnectedIsSilent`). The output is not lost, though: over all runs what was put into it is what was drained and
  what is left (`OutputConserved`), and what is left goes to TCP with the next call that passes through the TLS
  phase, in this session or a later one, and with no other (`LeftOverLeaves`). `LeftOverRun` is a run in which a
  second session over the same connection sends an old upgrade request, a frame and the close frame as data
  (`SecondSession` is the general case). Nothing but drained output is ever sent as data (`SentIsOutput`); a drain is
  sent in full exactly if TCP is ESTABLISHED, has a buffer, and the drain is shorter than 2^16 bytes (`DrainExact`).
- **Upgrade requests.** A TLS handshake that completes inside the feed loop makes the client generate the WebSocket
  upgrade request twice, otherwise once (`UpgradeCount`). The last one generated stays in the library's output. So the
  completing call hands a request to TCP exactly if completion was seen in the feed loop or a request was left in the
  output before (`UpgradeLeaves`); in a first session there is none.
- **TLS errors.** Over any run the error count is the number of failed calls with data modulo 3 (`ErrorsCount`), and a
  packet takes the client down exactly if it is the third such failure, the sixth, and so on (`DownExact`). The failures
  need not follow each other: a call that succeeds, a disconnect or a new connection does not clear the count, against
  the comment in src/modules/network/websocket_client.cpp:300, which speaks of three in a row.
- **Reconnecting the layered client.** Its TCP machine never returns to CLOSED, so at most one SYN ever leaves it
  (`OneSyn`), and once the peer has sent a FIN no reconnect gets beyond waiting for TCP (`NoWayBack`).
- **The frame decoder's length check** is the intended one except if the 64-bit sum wraps and the data reaches what is
  left of it (`GuardExact`; `OverrunInput` is such an input).
- **`generate_websocket_frame`** agrees with `frame_message`, and can be read back, exactly if the length bytes are a
  palindrome, which includes all payloads of at most 125 bytes (`GeneratedExact`, `PalindromeCases`).
- **Forwarding.** If the NICs offer free buffers and no buffer twice, the loop receives exactly the front 32 of every
  offer, from both ports, in order (`ForwardLoop`); what it does not pass on it frees.
- **Subscriptions.** What is posted in a session is exactly the registered subscriptions. What reaches the wire can
  contain older subscribe messages too; `SessionWire` says exactly when, `DuplicateOnWire` is a run.
- **The reconnecting client** has nothing left going on exactly if its last timer wait failed with an error of its own
  and nothing has revived it since (`StrandsExact` for one step, `StrandedExact` for runs, `TimerErrorStrands` a run).
- **The retry counter** starts over with every success: at any time it is the number of attempts scheduled since the
  last one, and the next attempt waits the delay of that number (`CounterSinceWin`, `DelaySinceWin`).
- **Retry delays** never decrease between successes if the multiplier is at least 1 and the configured initial delay is
  not negative.

Where the code and its comments disagree, the model follows the code. The static flags of the TLS phase are never
reset when the client disconnects, against src/modules/network/websocket_client.cpp:79-80. The polled back-off has no
jitter, against src/modules/network/websocket_client.cpp:959. The statics are
shared by all client objects: a client starts with any values of them, and calls of other objects may change them
between its own.

## Model

| member | source | states |
|---|---|---|
| Packet.PacketRoundTrip | src/modules/network/micro_tcp.cpp:269-384 | A packet written by one side passes the parser and both address filters of the other side and gives back flags, numbers and payload, exactly for payloads of at most 65481 bytes; longer ones are discarded |
| Packet.PacketLayout | src/modules/network/micro_tcp.cpp:44-318 | Every byte of a packet written: addresses, type, both headers without options, the payload; valid data and the memory behind it are cut at the 16-bit length |
| Packet.ReceiveExact | src/modules/network/micro_tcp.cpp:91-151 | A packet is taken as a segment of the connection exactly if it is IPv4 and TCP, both header lengths are at least 20 and lie in the valid data, addresses and ports are the connection's and the total length covers the headers |
| Packet.ParseExact | src/modules/network/micro_tcp.cpp:331-384 | Parsing accepts exactly these headers, with any options, and finds where they end |
| Packet.SegmentRead | src/modules/network/micro_tcp.cpp:139-190 | Numbers and flags are read behind the IPv4 header, and the payload is what the total length leaves behind both headers, padding cut off |
| PacketWriter.WriteTemplate | src/modules/network/micro_tcp.cpp:44-69 | Writing the cached headers field by field gives exactly the constant parts of the three headers |
| PacketWriter.WritePacket | src/modules/network/micro_tcp.cpp:269-329 | Template copy, dynamic fields and payload written in place give the packet of the segment |
| MicroTcp.Client.constructor | src/modules/network/micro_tcp.cpp:34-72 | A closed connection numbered from the random value, with the header template in place |
| MicroTcp.Client.CreateTcpPacket | src/modules/network/micro_tcp.cpp:269-329 | The segment is numbered from snd_nxt (or iss for the SYN) and consumes its length; a failed allocation consumes nothing |
| MicroTcp.Client.Open | src/modules/network/micro_tcp.cpp:74-83 | Only a closed connection sends a SYN, and it is in SYN_SENT afterwards even if no packet could be allocated |
| MicroTcp.Client.Send | src/modules/network/micro_tcp.cpp:259-267 | Data is packed only in ESTABLISHED |
| MicroTcp.Client.ProcessRx | src/modules/network/micro_tcp.cpp:85-257 | The new state and the returned packets are those of the transition function on the segment received, if any |
| MicroTcp.Client.TakeData | src/modules/network/micro_tcp.cpp:181-216 | In-order data is stored unless the buffer is full, and acknowledged; old data is acknowledged; data ahead is ignored |
| MicroTcp.Client.ExtractRxData | src/modules/network/micro_tcp.cpp:423-427 | Hands over the buffered bytes and empties the buffer |
| TcpRuns.ArriveIsProcessRx | src/modules/network/micro_tcp.cpp:85-257 | A packet step of a run does to the variables, and emits, what `process_rx` does |
| TcpRuns.AckAccounting | src/modules/network/micro_tcp.cpp:160-253 | In every run rcv_nxt is IRS+1+data accepted+FINs taken mod 2^32, at most two FINs are taken, and every emitted segment but the SYN carried the value of its moment, in rising order |
| TcpRuns.NeverBackwards | src/modules/network/micro_tcp.cpp:160-253 | The connection state never moves backwards in a run |
| TcpRuns.SendTiling | src/modules/network/micro_tcp.cpp:259-322 | In every run each emitted segment is numbered right after the SYN and the data emitted before it, and snd_nxt right after all of it |
| TcpRuns.RunKeeps | src/modules/network/micro_tcp.cpp:85-427 | The invariant behind the accounting and the tiling holds in every reachable state |
| TcpAnswers.AnswerExact | src/modules/network/micro_tcp.cpp:160-253 | The exact list of segments a packet draws in each state, with flags and numbers: in-order and old data, each FIN and the right SYN-ACK are acknowledged, nothing else is; a failed allocation drops its own answer only |
| TcpAnswers.VariablesExact | src/modules/network/micro_tcp.cpp:160-253 | Each variable of the connection after a segment: numbers, window edges, the buffer with its bound of 10 MB |
| TcpAnswers.LatestAcks | src/modules/network/micro_tcp.cpp:160-253 | In every run whose allocations are granted, once synchronized the last segment emitted acknowledges all data bytes and FINs accepted so far |
| TcpAnswers.EmissionKinds | src/modules/network/micro_tcp.cpp:74-267 | A run emits one SYN at most, in front, bare acknowledgements, and segments with PSH and ACK that carry the data of the granted sends in ESTABLISHED, one each and in order |
| TcpAnswers.StateExact | src/modules/network/micro_tcp.cpp:74-253 | The state of every run from its calls and packets: connect, then the first SYN-ACK that acknowledges iss, then the first and the second FIN behind it, and nothing else |
| TcpAnswers.WireBack | src/modules/network/micro_tcp.cpp:255-384 | The packets handed out read back at the peer as the segments created, with a null pointer for each failed allocation |
| TcpSafety.ReceivePrefix | src/modules/network/micro_tcp.cpp:181-217 | Under any loss, duplication and reordering, wrap included, bytes extracted and buffered are the front of the peer's stream without what met a full buffer, in order, and a prefix of the stream if nothing did |
| TcpSafety.PrefixSafetyExact | src/modules/network/micro_tcp.cpp:181-217 | Over all runs in which nothing is lost the bytes kept are a prefix of the stream, exactly if the stream is shorter than 2^32 bytes |
| TcpSafety.FeedReaches | src/modules/network/micro_tcp.cpp:181-217 | In-order delivery hands over every byte of any stream, or buffers as many as the buffer holds |
| TcpSafety.OldByteAccepted | src/modules/network/micro_tcp.cpp:184-200 | For a longer stream there is a run in which an old byte is taken as new |
| TcpSafety.ReAckExact | src/modules/network/micro_tcp.cpp:205-215 | The plain comparison tells old data from new exactly if both offsets lie on the same side of the wrap |
| TcpSafety.DuplicateUnanswered | src/modules/network/micro_tcp.cpp:205-215 | A run in which a repeated old byte is not acknowledged again |
| TcpSafety.WindowExact | src/modules/network/micro_tcp.cpp:219-223 | With a peer that acknowledges only what was sent, iss < snd_una <= snd_nxt holds while the numbers sent have not wrapped, and for less than 2^32 bytes sent exactly then |
| TcpSafety.WindowWraps | src/modules/network/micro_tcp.cpp:219-223 | A concrete run with such a peer in which snd_nxt falls behind snd_una |
| TcpSafety.AckProgress | src/modules/network/micro_tcp.cpp:219-223 | Without wrap an acknowledgement moves snd_una to the maximum of both |
| TcpSafety.NothingLostExact | src/modules/network/micro_tcp.cpp:193-200 | Over all runs of a peer no data is lost exactly if its stream fits the receive buffer |
| TcpSafety.GapRun | src/modules/network/micro_tcp.cpp:193-200 | For every stream longer than the buffer by two bytes or more there is a run that hands over the buffer's content and the byte after next |
| TcpSafety.FullBufferGap | src/modules/network/micro_tcp.cpp:193-200 | From any state, a segment of any size that meets a full buffer is skipped, so the bytes kept stay a prefix exactly if the stream repeats there |
| TcpSafety.FinExact | src/modules/network/micro_tcp.cpp:225-237 | A FIN that ends the stream closes the receive side whenever it arrives; the stream is then complete, and rcv_nxt the number after the FIN, exactly if nothing before the segment was missing |
| TcpSafety.NothingAfterFin | src/modules/network/micro_tcp.cpp:225-253 | Past ESTABLISHED no event adds a byte to those kept |
| TcpSafety.EarlyFin | src/modules/network/micro_tcp.cpp:225-237 | A peer run in which the FIN overtakes the stream, after which nothing is ever handed over |
| TcpSafety.EmissionIsPeer | src/modules/network/micro_tcp.cpp:305-322 | Every segment a sender emits is a correctly numbered slice of what it sends altogether |
| TcpSafety.EndToEnd | src/modules/network/micro_tcp.cpp:85-329 | Packets of one machine, put through a lossy, repeating and reordering network, hand over the front of the data sent without what met a full buffer, in order; the handshake reply comes from the environment |
| TlsRecords.PumpsMeaning | src/modules/network/websocket_client.cpp:203-234 | All calls before the last one wanted more, and only the tenth may still want it |
| TlsRecords.CallsMeaning | src/modules/network/websocket_client.cpp:203-257 | The calls for a record follow those for the records before it and stop at the first that does not want more or after ten; the last one tells completion |
| TlsRecords.WholeRecordExact | src/modules/network/websocket_client.cpp:138-169 | A whole record is told by its type byte, 20 to 23, and its two length bytes, high byte first |
| TlsRecords.SplitBack | src/modules/network/websocket_client.cpp:126-186 | Records laid end to end are cut at exactly their boundaries |
| TlsRecords.LongestCuts | src/modules/network/websocket_client.cpp:126-169 | Every way to cut records from the front begins the one that cannot be continued |
| TlsRecords.FeedLongest | src/modules/network/websocket_client.cpp:126-169 | Without completion the feed loop cuts as many records as there are |
| TlsRecords.FeedAgrees | src/modules/network/websocket_client.cpp:118-257 | The loop's records, end and completion are those of the function that the client's transitions use |
| WebSocketClient.UpgradeCount | src/modules/network/websocket_client.cpp:236-282 | The completing call generates one upgrade request, and a second one exactly if completion was seen in the feed loop |
| TlsOutput.TlsFlowExtends | src/modules/network/websocket_client.cpp:91-282 | The TLS phase drains everything that was left in the library's output, and conserves it |
| TlsOutput.TlsRequests | src/modules/network/websocket_client.cpp:236-282 | After the last call of the TLS phase every request made so far has been drained, and the one made then stays |
| TlsOutput.WritesExact | src/modules/network/websocket_client.cpp:91-282 | The exact list of writes of one call in the TLS phase: left-over output before the first record, what each handshake call made right after it, the empty segments of the upgrade requests, and what stays behind |
| WebSocketClient.UpgradeLeaves | src/modules/network/websocket_client.cpp:260-282 | With successful encryption the completing call hands a request to TCP exactly if completion was seen in the feed loop or a request was left in the output before, and leaves exactly one behind; requests generated are handed over or left |
| WebSocketClient.Client.Connect | src/modules/network/websocket_client.cpp:36-49 | Starts TCP only from the disconnected state and hands out the SYN exactly if one could be created |
| WebSocketClient.Client.Drain | src/modules/network/tls_socket.cpp:133-148 | Everything pending is read at once and sent, cut to the 16-bit length |
| WebSocketClient.Client.SendEncrypted | src/modules/network/websocket_client.cpp:367-383 | The encrypted bytes stay in the library, and an empty segment is sent if encryption succeeded |
| WebSocketClient.Client.Pump | src/modules/network/websocket_client.cpp:203-234 | The pump loop stops at the first call that does not want more, or after ten; the output is sent after each call |
| WebSocketClient.Client.FeedRecords | src/modules/network/websocket_client.cpp:118-257 | The loop ends; it feeds consecutive whole records of type 20 to 23 from offset 0, up to the first one after which the handshake is complete, and otherwise as many as there are; output is sent before each record and after each call |
| WebSocketClient.Client.ProcessTls | src/modules/network/websocket_client.cpp:78-309 | Client hello, feed loop, last handshake call and the error count change the state, and write to TCP, as the transition function says |
| WebSocketClient.Client.Process | src/modules/network/websocket_client.cpp:51-337 | TCP first, then the buffer drained, then the state machine; the packets of both are handed out in that order, and what the TLS library was given is what stands at the positions noted |
| WebSocketClient.Client.SendTextMessage | src/modules/network/websocket_client.cpp:339-352 | Only a connected client makes a frame; it becomes an empty segment, and no packet is handed out |
| WebSocketClient.Client.CloseConnection | src/modules/network/websocket_client.cpp:870-885 | A client that is not disconnected packs the close frame as an empty segment and is disconnected |
| WebSocketClient.Client.Reconnect | src/modules/network/websocket_client.cpp:967-994 | A due reconnect starts over from the disconnected state unless the attempts are used up, and hands out the SYN exactly if one could be created |
| WebSocketExact.HandshakeState | src/modules/network/websocket_client.cpp:64-309 | After a call through the TLS phase the client is disconnected by a failure with two before it, up if completion was reported, and in the TLS phase otherwise; the error count goes up to 2 and back to 0 |
| WebSocketExact.OtherState | src/modules/network/websocket_client.cpp:36-352 | The state after every other call and packet |
| WebSocketExact.HelloExact | src/modules/network/websocket_client.cpp:91-116 | The hello counts as sent exactly if a call through the TLS phase found something to send |
| WebSocketExact.TcpExact | src/modules/network/websocket_client.cpp:36-352 | What each call does to TCP: open, or deliver, drain and send; messages send an empty segment |
| WebSocketExact.OutputGrows | src/modules/network/websocket_client.cpp:310-383 | Outside the TLS phase the library's output grows by exactly the frame, the close frame, or what decryption answers |
| WebSocketExact.ReconnectExact | src/modules/network/websocket_client.cpp:967-994 | A due reconnect starts over with at most 10 attempts and is dropped above; one not due stays pending |
| WebSocketExact.ErrorsCount | src/modules/network/websocket_client.cpp:283-307 | Over any run the error count is the number of failed calls with data modulo 3, whatever happens in between |
| WebSocketExact.DownExact | src/modules/network/websocket_client.cpp:283-307 | A packet takes the client down exactly if it is the third, sixth, ... failed call with data of the whole history |
| WebSocketExact.SynExact | src/modules/network/websocket_client.cpp:36-49 | A connection attempt hands out one packet, which the peer reads as the SYN, exactly if TCP was closed and got a packet |
| WebSocketExact.PacketsExact | src/modules/network/websocket_client.cpp:263-274 | Every write that gets its packet is handed out in order, and the peer reads its data |
| WebSocketExact.CloseExact | src/modules/network/websocket_client.cpp:870-885 | Closing hands out one empty segment exactly if encryption succeeded, TCP is up and there is a packet |
| WebSocketRuns.RunTrace | src/modules/network/websocket_client.cpp:36-352 | Every run of the layered client is a run of its TCP machine |
| WebSocketRuns.NeverFull | src/modules/network/websocket_client.cpp:51-61 | In every run, with any packets, no packet can find the buffer full |
| WebSocketRuns.DrainedPrefix | src/modules/network/websocket_client.cpp:51-61 | In every run of the client the bytes drained from TCP are a prefix of the peer's stream, with no buffer assumption |
| WebSocketRuns.EndToEndDrained | src/modules/network/websocket_client.cpp:51-61 | Packets of a sending machine, lost, repeated and reordered, hand this client a prefix of the data sent |
| WebSocketRuns.FedExact | src/modules/network/websocket_client.cpp:91-330 | Over all runs the TLS library is given every drained byte exactly if every call writes all it drains, and the first drained bytes without a gap exactly if no call that drops bytes comes before one that writes some |
| WebSocketRuns.WholeMeans | src/modules/network/websocket_client.cpp:91-330 | A call writes all it drains exactly if it drains nothing, or is in WS_CONNECTED, or is in the TLS phase after the hello and the data is cut into records, up to the one that completes the handshake, without a rest |
| WebSocketRuns.FedPrefix | src/modules/network/websocket_client.cpp:91-330 | Without such a call the bytes given to the TLS library are a prefix of the peer's stream |
| WebSocketRuns.CutAlone | src/modules/network/websocket_client.cpp:126-169 | Two packets with any bytes: each is cut into records on its own |
| WebSocketRuns.SplitRecordSkips | src/modules/network/websocket_client.cpp:162-169 | A run with a record cut in two, in which what TLS is given is no prefix of the peer's stream |
| WebSocketRuns.ConnectedIsLayered | src/modules/network/websocket_client.cpp:64-318 | WS_CONNECTED is reached only after TCP was seen ESTABLISHED and then TLS reported completion, and every call since left the client in the TLS phase or above |
| WebSocketRuns.StepUp | src/modules/network/websocket_client.cpp:36-318 | One call moves up only from the layer below and only on its report |
| WebSocketRuns.OneSyn | src/modules/network/websocket_client.cpp:36-49 | In every run, reconnects included, at most one SYN leaves the client |
| WebSocketRuns.NoWayBack | src/modules/network/websocket_client.cpp:64-76 | Once TCP is past ESTABLISHED and the client disconnected, nothing gets it beyond waiting for TCP |
| WebSocketRuns.ConnectedIsSilent | src/modules/network/websocket_client.cpp:310-352 | In every reachable WS_HANDSHAKE_SENT or WS_CONNECTED state no call and no packet uses a sequence number |
| WebSocketOutput.OutputConserved | src/modules/network/tls_socket.cpp:84-108 | Over all runs everything put into the library's output has been drained or is left, each piece once and in order |
| WebSocketOutput.LeftOverLeaves | src/modules/network/websocket_client.cpp:91-274 | What is left in the output is drained by the next call that passes through the TLS phase, and by no other |
| WebSocketOutput.SentIsOutput | src/modules/network/websocket_client.cpp:91-383 | Over all runs the data sent are drained output, in order, with some left out |
| WebSocketOutput.DrainExact | src/modules/network/websocket_client.cpp:263-274 | A drain is sent in full exactly if TCP is ESTABLISHED, the allocation succeeds, and it is shorter than 2^16 bytes |
| WebSocketOutput.SecondSession | src/modules/network/websocket_client.cpp:263-274 | From any connected state over an established connection, disconnect, connect and one call without a packet send everything left, the close frame included |
| WebSocketOutput.LeftOverRun | src/modules/network/websocket_client.cpp:263-274 | A run of two sessions in which an old request, a frame and a close frame are sent as three bytes of data without a completion in a feed loop |
| Words.XorIsBitwise | src/modules/network/websocket_framer.h:87-89 | The exclusive or of the model is that of the machine's bytes |
| Words.BitIsMask | src/modules/network/micro_tcp.cpp:162-242 | Testing a flag is masking with 1, 2 or 16 |
| Words.ByteAt | src/modules/network/websocket_framer.h:64-72 | Byte j of k in network order has the weight 256^(k-1-j) |
| WsFrame.EncodeIsFrame | src/modules/network/websocket_framer.h:26-96 | The written frame byte by byte: final bit and opcode, mask bit and length, extended length high byte first, the key, and payload byte i exclusive-ored with key byte i mod 4 in front of it |
| WsFrame.DecodeExact | src/modules/network/websocket_client.cpp:472-524 | Reading byte by byte, masked or not, with the length in any form: a frame is taken exactly if the data holds all its header announces, and each payload byte is the one behind the header exclusive-ored with its key byte |
| WsFrame.HeaderOrIncomplete | src/modules/network/websocket_client.cpp:472-499 | Exactly the data that is too short for its length field announces nothing, and is incomplete |
| WsFrame.GeneratedBytes | src/modules/network/websocket_client.cpp:412-452 | The second encoder's frame byte by byte: always masked, extended length bytes lowest first |
| WsFrame.FrameRoundTrip | src/modules/network/websocket_framer.h:26-96 | For every payload, opcode, mask setting and key, decoding the frame followed by anything gives back opcode and payload |
| WsFrame.StrictPrefixIncomplete | src/modules/network/websocket_client.cpp:472-499 | Every strict prefix of a frame is rejected as incomplete |
| WsFrame.ShortestLength | src/modules/network/websocket_framer.h:59-72 | No shorter length encoding denotes the same length |
| WsFrame.FrameMessage | src/modules/network/websocket_framer.h:26-96 | Writes the frame, laid out byte by byte as section 5.2 of RFC 6455 says, and returns its exact length; returns 0 and touches nothing exactly if it does not fit |
| WsFrame.GuardExact | src/modules/network/websocket_client.cpp:482-499 | The length check lets an unfinished frame through exactly if the 64-bit sum wraps and the data reaches its remainder, and is the intended check exactly otherwise |
| WsFrame.OverrunInput | src/modules/network/websocket_client.cpp:482-499 | The greatest claimed length: ten bytes are incomplete, fourteen pass the check |
| WsFrame.GenerateWebsocketFrame | src/modules/network/websocket_client.cpp:412-452 | The pushed bytes are the frame with the length swapped once more |
| WsFrame.GeneratedExact | src/modules/network/websocket_client.cpp:412-452 | On a little-endian host that frame equals the other encoder's, and can be read back, exactly if the length bytes are a palindrome |
| WsFrame.PalindromeCases | src/modules/network/websocket_client.cpp:424-432 | Lengths up to 125 are fine and 126 is not |
| Forwarding.Loop.RxBurst | src/core/forwarding.cpp:65-136 | Of distinct free buffers offered exactly the front 32 are received, and otherwise every free one while there is room; each has one reference |
| Forwarding.Loop.Iterate | src/core/forwarding.cpp:54-148 | One iteration receives the front 32 of both offers and transmits the front of each burst towards the other port; in any environment it holds nothing afterwards, reference counts equal holders, every packet and duplicate went to exactly one queue or free, in order, and each queue holds the last of what went to it |
| Forwarding.Loop.ForwardLoop | src/core/forwarding.cpp:54-158 | The same over any number of iterations, for all three queues; if no buffer is offered twice, both ports receive exactly the front 32 of every offer, in order; drained queues leave every buffer free |
| Forwarding.HftExact | src/core/forwarding.cpp:77-84 | Exactly the packets the classifier names are duplicated, as often as they are in the burst |
| Forwarding.RingExact | src/core/forwarding.cpp:84-103 | Exactly the duplicates that found room are in the ring |
| Forwarding.Loop.Classify | src/core/forwarding.cpp:77-111 | Every packet goes on to the kernel; exactly the fast-path packets are duplicated, and those with room enter the ring |
| Forwarding.Loop.Duplicate | src/core/forwarding.cpp:84-103 | The extra reference ends in the ring or is given back |
| Forwarding.Loop.SendToVirt | src/core/forwarding.cpp:114-127 | The front of the burst is transmitted, the rest freed; everything is freed without a virtual port |
| Forwarding.Loop.SendToPhys | src/core/forwarding.cpp:133-148 | The front of the burst is transmitted, the rest freed |
| Forwarding.PassConserves | src/core/forwarding.cpp:114-147 | A partly taken burst keeps the accounting and the order of a transmit point |
| Forwarding.DrainedIsFree | src/core/forwarding.cpp:65-148 | With empty queues and only then no reference is left |
| Subsequences.SubsequenceExact | src/core/forwarding.cpp:116-147 | One list has the order of another exactly if it stands there at rising positions |
| Subsequences.SubsequenceBurst | src/core/forwarding.cpp:116-121 | Taking the front of every burst keeps the order over all bursts |
| Backoff.RetryDelay | src/modules/network/boost_websocket_client.cpp:205-215 | The delay loop computes the delay of the attempt |
| Backoff.DelayClosedForm | src/modules/network/boost_websocket_client.cpp:205-210 | That delay is min(initial * multiplier^(n-1), max), cut towards zero to whole milliseconds |
| Backoff.DelayMonotone | src/modules/network/boost_websocket_client.cpp:205-215 | Later attempts never wait less |
| Backoff.BackoffIsCappedExponential | src/modules/network/websocket_client.cpp:958-965 | For every attempt count the result is min(1000 * 2^attempts, 30000): clamp and 32-bit arithmetic change nothing |
| Backoff.BackoffTable | src/modules/network/websocket_client.cpp:958-965 | The polled delays are 1, 2, 4, 8, 16 and then 30 seconds |
| Reconnect.ReconnectLedger | src/modules/network/boost_websocket_client.cpp:194-308 | In every run attempts are waits armed, cancelled, chains in flight, failed and successes; retry_count is the attempts since the last success and within the maximum |
| ReconnectRuns.CounterSinceWin | src/modules/network/boost_websocket_client.cpp:60-300 | In every run retry_count is the attempts now minus the attempts right after the last successful connect or handshake, and 0 at that moment; without one it is all attempts |
| ReconnectRuns.DelaySinceWin | src/modules/network/boost_websocket_client.cpp:194-215 | An attempt waits the delay of its number since the last success, the first one the initial delay |
| ReconnectRuns.SecondChance | src/modules/network/boost_websocket_client.cpp:60-203 | A run with one attempt allowed: a success makes room for another, without it the client gives up |
| ReconnectRuns.FlagsExact | src/modules/network/boost_websocket_client.cpp:21-308 | State, connected flag, stop, reads after every step: success connects; a wanted retry waits or gives up at the maximum; other errors disconnect or close |
| ReconnectRuns.CountersExact | src/modules/network/boost_websocket_client.cpp:60-300 | Counter, attempts and delays after every step |
| ReconnectRuns.WaitsExact | src/modules/network/boost_websocket_client.cpp:215-224 | Waits after every step: arming cancels one still armed, expiry queues its handler |
| ReconnectRuns.AttemptsMove | src/modules/network/boost_websocket_client.cpp:226-288 | Each completed operation of an attempt starts the next one |
| ReconnectRuns.AttemptsEnd | src/modules/network/boost_websocket_client.cpp:226-308 | An attempt ends with the completed handshake or with the first operation that fails |
| Reconnect.FinitelyMany | src/modules/network/boost_websocket_client.cpp:194-203 | Without a further success at most the remaining attempts are scheduled |
| Reconnect.StrandsExact | src/modules/network/boost_websocket_client.cpp:69-308 | A step takes a client with retries out of everything going on exactly if its last wait fails with an error of its own, and back exactly if it is a new connect or an error of a left-over read |
| Reconnect.StrandedExact | src/modules/network/boost_websocket_client.cpp:69-308 | In every run that is not closed the client has nothing going on exactly if such a timer error happened and nothing revived it since |
| Reconnect.NeverStranded | src/modules/network/boost_websocket_client.cpp:69-308 | Without a timer error an open client with retries is connected, waiting, attempting or has given up |
| Reconnect.TimerErrorStrands | src/modules/network/boost_websocket_client.cpp:216-221 | A run in which a failed timer wait leaves nothing going on |
| Reconnect.DelaysGrow | src/modules/network/boost_websocket_client.cpp:205-215 | In every run the delays armed since the last success never decrease |
| Reconnect.BoostClient.ScheduleReconnect | src/modules/network/boost_websocket_client.cpp:194-224 | Gives up at the maximum, otherwise counts, arms the timer and cancels an armed wait |
| Reconnect.BoostClient.ConnectTo | src/modules/network/boost_websocket_client.cpp:21-84 | A successful connection starts the counter over and a read; a failed one schedules or disconnects |
| Reconnect.BoostClient.ConnectionLost | src/modules/network/boost_websocket_client.cpp:95-126 | A failed read or write schedules a reconnect or closes |
| Reconnect.BoostClient.OnReadError | src/modules/network/boost_websocket_client.cpp:117-128 | A read that failed is over, and the connection is lost |
| Reconnect.BoostClient.OnTimerExpires | src/modules/network/boost_websocket_client.cpp:215-216 | An expired wait queues its handler |
| Reconnect.BoostClient.OnTimerError | src/modules/network/boost_websocket_client.cpp:216-221 | A timer handler with an error ends the attempt and does nothing |
| Reconnect.BoostClient.AttemptReconnectAsync | src/modules/network/boost_websocket_client.cpp:226-249 | The attempt starts resolving or is scheduled again |
| Reconnect.BoostClient.OnResolve | src/modules/network/boost_websocket_client.cpp:251-264 | Resolved: connecting starts; otherwise the attempt failed and another is scheduled |
| Reconnect.BoostClient.OnConnect | src/modules/network/boost_websocket_client.cpp:266-277 | Connected: the TLS handshake starts; otherwise the attempt failed and another is scheduled |
| Reconnect.BoostClient.OnSslHandshake | src/modules/network/boost_websocket_client.cpp:279-288 | Secured: the WebSocket handshake starts; otherwise the attempt failed and another is scheduled |
| Reconnect.BoostClient.OnUpgraded | src/modules/network/boost_websocket_client.cpp:290-308 | A completed handshake connects, counts the success and starts the counter over |
| Reconnect.BoostClient.CloseConnection | src/modules/network/boost_websocket_client.cpp:164-181 | A closed client is not connected and runs no handler any more |
| Session.SubscriptionSession | src/modules/exchange/okx_connection.cpp:29-72 | In every reachable connected state the subscribe messages posted since the last handshake are those of all subscriptions ever asked for, in order |
| Session.SubsAreAsked | src/modules/exchange/okx_connection.cpp:41-46 | The registered subscriptions are all those asked for, whatever happened to the connection |
| Session.MessagesExact | src/modules/exchange/okx_connection.cpp:48-61 | One message for each instrument, in order |
| Session.SubsOfExact | src/modules/exchange/okx_connection.cpp:48-72 | Exactly the subscribe messages of a list are counted, each as often as it is there |
| Session.OutboxExact | src/modules/network/boost_websocket_client.cpp:86-105 | What each call does to the pending writes: resubscribe, post while connected, or take the oldest off |
| Session.PostedExact | src/modules/network/boost_websocket_client.cpp:86-90 | What counts as posted in a session: the resubscription, then what is sent while connected |
| Session.WireExact | src/modules/network/boost_websocket_client.cpp:86-105 | What each call writes: the oldest message, if the client is connected and the write succeeds |
| Session.SessionWire | src/modules/network/boost_websocket_client.cpp:86-105 | Written and pending messages are the left-over ones and then the posted ones; the wire shows exactly the subscriptions if and only if none was left over |
| Session.DuplicateOnWire | src/modules/exchange/okx_connection.cpp:34-37 | A run in which a subscription is written twice in one session |
| Session.Connection.ConnectExchange | src/modules/exchange/okx_connection.cpp:16-39 | Sets the callback, connects, and resubscribes on success |
| Session.Connection.SubscribeInstruments | src/modules/exchange/okx_connection.cpp:41-61 | Registers first and posts only if connected |
| Session.Connection.ResubscribeAll | src/modules/exchange/bybit_connection.cpp:64-73 | Posts every instrument of every subscription in order |
| Session.Connection.HandshakeDone | src/modules/network/boost_websocket_client.cpp:290-308 | A completed handshake resubscribes through the callback |
| Session.Connection.RunPosted | src/modules/network/boost_websocket_client.cpp:90-104 | A posted write is dropped, written, or loses the connection |
| IncomingQueue.BoundedAndOrdered | src/modules/network/boost_websocket_client.cpp:136-145 | In every interleaving the queue stays within 10000 items, and dequeued plus queued is what was received without the messages whose check saw a full queue, in order |
| IncomingQueue.StepExact | src/modules/network/boost_websocket_client.cpp:134-145 | What each step of either thread does to queue, history and the message between check and enqueue, with the bound of 10000 |
| IncomingQueue.MissingExact | src/modules/network/boost_websocket_client.cpp:136-145 | Something is missing exactly if some check saw a full queue |
| IncomingQueue.ConcurrentQueue.Enqueue | src/modules/network/concurrentqueue.h:44-52 | Appends the item |
| IncomingQueue.ConcurrentQueue.TryDequeue | src/modules/network/concurrentqueue.h:55-63 | Takes the oldest item if there is one |
| IncomingQueue.Threads.CheckSize | src/modules/network/boost_websocket_client.cpp:136-138 | The check's step of the interleaving is one size query |
| IncomingQueue.Threads.EnqueueChecked | src/modules/network/boost_websocket_client.cpp:138 | Its second step is one enqueue of the message that passed the check |
| IncomingQueue.Threads.TakeOne | src/modules/exchange/okx_connection.cpp:74-84 | The consumer's step is one dequeue |
| IncomingQueue.OnRead | src/modules/network/boost_websocket_client.cpp:134-145 | Without interruption the message is enqueued unless the queue is full |
| IncomingQueue.Poll | src/modules/exchange/okx_connection.cpp:74-84 | Processes everything queued, oldest first, and leaves the queue empty |
| OrderBook.BookClosedForm | src/modules/market_data/order_book.cpp:15-59 | After any history a level is present exactly if its last update since the last snapshot or clear does not delete it, with that positive quantity |
| OrderBook.SingleExact | src/modules/market_data/order_book.cpp:37-59 | One update changes the level it names, to its quantity or to nothing, and no other |
| OrderBook.BatchIsSingles | src/modules/market_data/order_book.cpp:30-40 | A batch is its updates one by one, in order |
| OrderBook.SnapshotForgets | src/modules/market_data/order_book.cpp:15-28 | Clearing empties the book, and a snapshot forgets everything before it |
| OrderBook.LastExact | src/modules/market_data/order_book.cpp:42-59 | The update that decides a level is the last one that names it |
| OrderBook.DependsOnSince | src/modules/market_data/order_book.cpp:15-35 | The book depends only on the updates since the last snapshot or clear |
| OrderBook.SameEffects | src/modules/market_data/order_book.cpp:42-59 | Batches with the same effects per side give the same book however the sides interleave |
| OrderBook.IngestionAgrees | src/modules/parser/json_parser.cpp:130-170 | Parser updates, in any interleaving of the sides, give the same book as the manager's batch, negative quantities included |
| OrderBook.FromLevelsBack | src/modules/market_data/order_book.cpp:93-108 | The batch of a side carries that side's levels in order and deletes only non-positive quantities |
| OrderBook.OrderBook.ApplyUpdateInternal | src/modules/market_data/order_book.cpp:42-59 | One update sets or removes one level of one side |
| OrderBook.OrderBook.ApplySnapshot | src/modules/market_data/order_book.cpp:21-28 | The new book is that of the snapshot alone |
| OrderBook.OrderBook.ApplyUpdates | src/modules/market_data/order_book.cpp:30-35 | The updates are applied in order |
| OrderBook.BboOfHistory | src/modules/market_data/order_book.cpp:61-76 | After any history the best prices are the greatest bid and least ask whose last update since the last snapshot or clear does not delete them, with its quantities, or nothing exactly if a side has none |
| OrderBook.LowerBound | src/modules/market_data/order_book.h:90-93 | Finds the first level of a sorted side that does not come before a price |
| OrderBook.InsertOrAssign | src/modules/market_data/order_book.cpp:50 | The side stays sorted and its map has the price set |
| OrderBook.Erase | src/modules/market_data/order_book.cpp:48 | The side stays sorted and its map lacks the price |
| OrderBook.OrderBook.GetBbo | src/modules/market_data/order_book.cpp:61-76 | The first entries of the sorted sides are the best prices of all calls made on the book so far; nothing exactly if a side is empty |
| OrderBook.OrderBookManager.GetBook | src/modules/market_data/order_book.cpp:80-83 | The book of a key, created empty if it is missing, with all other books untouched |
| OrderBook.OrderBookManager.ApplyUpdate | src/modules/market_data/order_book.cpp:85-116 | Only the named book changes, as the bids-then-asks batch says |
| OrderBook.OrderBookManager.ApplyUpdates | src/modules/market_data/order_book.cpp:118-127 | Only the named book changes, as the snapshot or the batch says |
| OrderBook.OrderBookManager.GetBestPrices | src/modules/market_data/order_book.cpp:129-162 | The best prices of everything applied to the key's book; asking changes no book |
| UdpFeed.FeedRoundTrip | src/modules/network/udp_publisher.cpp:63-125 | The buffer can be read back completely exactly if the symbol and both sides fit the header's length fields |
| UdpFeed.HeaderLayout | src/modules/network/udp_publisher.cpp:74-99 | The header byte by byte: the letters HFTD, version 1, message type, exchange, time and lengths in network order, then the symbol |
| UdpFeed.LevelLayout | src/modules/network/udp_publisher.cpp:101-125 | Every level at its offset, bids before asks, price before quantity |
| UdpFeed.FeedInjective | src/modules/network/udp_publisher.cpp:63-125 | Messages that fit and differ have different encodings |
| UdpFeed.Encode | src/modules/network/udp_publisher.h:17-32 | The size is 24 + symbol length + 16 * (bids + asks) |
| UdpFeed.UdpPublisher.Serialize | src/modules/network/udp_publisher.cpp:63-125 | The reused buffer ends up holding this message and nothing of an earlier one |

## Left out

- Checksums: any 16-bit value may stand in the two checksum fields; computing them is left to the packet library.
- Packet memory: a built packet may be longer than a pool buffer, and payload bytes that the length field places behind the memory of the model read as 0.
- TcpSafety.HonestAck: the window theorem is about peers that acknowledge only what was sent; other acknowledgement numbers are covered by the transition functions alone.
- TcpSafety.EndToEnd: the reply that opens the receiver's connection comes from the environment, since the machine has no server side.
- TlsOutput.Flush: `read_encrypted` is taken to read all that is pending at once, as a memory buffer allows; how the TLS library splits or encrypts its output is an oracle's answer.
- TLS encryption, decryption and the HTTP upgrade response: the results of the TLS library are oracles, and the client assumes the upgrade succeeded, as the code does.
- The parts of `WebSocketClient` that no public call reaches: `initiate_reconnect`, `restore_subscriptions`, `parse_subscription_response`, `handle_tcp_data`, `handle_tls_data`. The reconnect fields start with any value instead.
- `WebSocketClient`'s own subscription map and heartbeat: only easy claims.
- JSON parsing and number conversion: parsed levels are the input. Quantities in the books are real numbers, so NaN is not modelled; on the wire they are 64-bit words.
- Backoff.RetryDelay: does not model the rounding of doubles; delays are real numbers, cut towards zero at the end.
- Reconnect: real time, host names and the stream objects; any operation under way may complete next. Closing from inside a handler, where the I/O thread would join itself, is not modelled beyond its flags.
- Session: every order of posted writes and handlers that keeps the writes in order is allowed, also some that the I/O thread would not choose. Data races between the I/O thread and callers are left out apart from the incoming queue.
- OrderBook.OrderBookManager.GetBook: what a caller does later through the returned reference; locks of the books.
- OrderBook: the balanced trees of the ordered maps; each side is a sorted sequence searched by halving.
- The socket call of the publisher, configuration, logging, port setup, name resolution, the classifier's rules, packet counters and their printout, the exchange registry, latency statistics.

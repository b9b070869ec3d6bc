# Verified model of the IPK25-CHAT client

A Dafny model of the chat client in this repository: the reliability layer of its UDP variant, the stream
framing of its TCP variant, the codecs of both, and the automaton that user input and server messages drive.
The model follows the C code. Where the code and the protocol text in README.md differ, it follows the code
(see "Where the code and its documentation differ").

`dafny verify dfyconfig.toml` checks everything.

## How it is built

Each piece exists twice where the source changes things in place: as a function on values, about which the
properties are proved, and as a class or method with the source's loops and buffers, proved to compute that function.

| file | what it models |
|---|---|
| Base.dfy | bytes, 16-bit identifiers, C strings, the sizes of doubling arrays |
| ConfirmedIds.dfy | the confirmation array of the sender, written by the listener |
| SeenIds.dfy | the list of displayed identifiers |
| Validation.dfy, Commands.dfy | parameter rules, the command functions and their dispatch on the state |
| Diagram.dfy | what the published automaton does on a message of the server |
| UdpCodec.dfy | datagrams: serializers and deserializers over byte buffers |
| UdpClient.dfy | the two UDP threads as atomic steps, and the invariant they keep together |
| UdpHistory.dfy | what the log of a client says after any steps: confirmations, displays, retries, gates |
| UdpNetwork.dfy | runs against a network that loses, duplicates, delays and reorders, and an honest server |
| UdpTheorems.dfy | the results about complete runs |
| UdpAnswers.dfy | in every run: when a scan succeeds, when the sender gives up, what the user sees, what ends the process, and what a typed command becomes at the server |
| UdpSends.dfy | how each step of a send ends in every run, and that a confirmed message is not sent again |
| UdpDiagram.dfy | which steps of a UDP run follow the published automaton, and which do not |
| UdpProcess.dfy | the UDP client with its loops and globals; what its methods do is a sequence of the steps above |
| TcpText.dfy | text messages: formatters, `strstr` and `sscanf` parsers |
| TcpFraming.dfy | cutting the stream into lines, chunk by chunk and all at once |
| TcpOutput.dfy | lists of framed messages on the wire, and chat from formatter to parser |
| TcpListener.dfy | the listener with its receive buffer, line buffer and capacity bookkeeping |
| TcpClient.dfy | the TCP client as a whole: runs of commands and chunks, and the class that executes them |
| TcpServer.dfy | what a server reads from the client's lines, and what the client makes of a server's, with all words spelled out |
| TcpDiagram.dfy | which inputs and which lines of the TCP client follow the published automaton |
| Variants.dfy | the UDP and the TCP automaton side by side |
| VariantRuns.dfy | runs of both clients reduced to that automaton, and compared |

A step is atomic: one command up to the entry of its send, one turn of the retry loop up to its pause, one scan,
one datagram. In the network, whatever was sent once may arrive any number of times, at any time, or never. The
server may send any well-formed datagram, but confirms only identifiers of messages it received. An access
outside the confirmation array or through a null result of a deserializer is the fate `Undefined`; no run reaches it.
The list of displayed identifiers and the receive buffers are arrays whose accesses are proved to stay inside. The
arrays that can be overrun are the global `display_name` and the local buffers of the TCP parsers; both have their exact
conditions below.

## Main results

1. **Delivery** (`UdpTheorems.DeliveryExactlyBelowSentinel`). A send that returns normally has been received by
   the server in every run if and only if its number is below 65535. Number 65535 has the identifier that fills
   unused array slots, and from 65536 on identifiers repeat; for every such number a run is constructed in which
   the send returns and its datagram is lost.
   End to end (`UdpAnswers.TypedReachesServer`): a typed command numbered below 65535, once its send is over, is at the
   server, which reads the typed parameters from the bytes.
2. **Stop-and-wait order, identifiers, retries** (`EarlierMessagesReceived`, `IdDiscipline`, `RetriesAreBounded`,
   `UdpAnswers.ScanExactlyWhenConfirmed`, `GivesUpOnlyAfterAllAttempts`). At any moment every earlier message numbered
   below 65535 has been received; messages carry 0, 1, 2, ... modulo 65536; each goes out in identical copies, in at
   most `retransmissions + 1` attempts within a bounded time. The scan for a message succeeds exactly when its CONFIRM
   was processed or its number is 65535 or more, and the client gives up only when every attempt is spent without one.
   A message whose CONFIRM was processed before the end of a pause is not sent again, and its send returns
   (`UdpSends.ConfirmedIsNotSentAgain`, `WakeDecides`, `SendEndsExactly`).
3. **Array safety** (`ArraysStayInBounds`). However sender and listener interleave, the confirmation array keeps
   its shape, no access leaves it, and the index stays within the capacity exactly up to 102400 messages.
4. **Deduplication, confirmation, output** (`DisplaysAreFirstArrivals`, `ConfirmsAnswerArrivals`,
   `UdpAnswers.UserSeesExactly`, `ExitsAreExplained`). Displays are the first arrivals, in order; CONFIRMs answer exactly
   the datagrams that call for one, in order, duplicates included. The output is a function of the bytes received, and
   the process ends for the listed reasons only.
5. **States** (`SendsFollowWelcome`, `StatesNeverGoBack`, `UdpDiagram.RunStepFollowsExactly`, `TcpDiagram.LineFollowsExactly`,
   `VariantRuns.UdpRunIsAutomaton`, `RunsOfBothAgree`). Chat and JOIN come after the positive REPLY of AUTH; START is never
   entered again, nor AUTH after OPEN. A step of a UDP run leaves the published automaton exactly in these cases: a refused
   /auth in START, an /auth in AUTH that no negative REPLY called for, a REPLY in START or OPEN or with a result above 1, a
   MSG in AUTH, a datagram of unknown type, and the exit on an unconfirmed message. Each is reached by a constructed run.
   The TCP client leaves it in the two cases of /auth, on a REPLY in OPEN, a MSG in AUTH and an unknown line. Runs of
   either client have the state and name that the automaton computes from their commands and replies; the variants agree
   exactly when every REPLY is awaited.
6. **Codecs** (`UdpCodec.DecodeEncode`, `EncodeDecode`, `EncodePrefixFree`, `WireLayout`, `DecodeLayout`;
   `TcpText.ChatRoundTrip`, `TcpServer.ServerReadsBody`, `ShapedLinesAreRead`, `ReadRepliesAreShaped`). Round trips with the
   exact condition under which they hold; the binary encoding is prefix-free. The bytes of every message, the grammar the
   server reads and the shape of a REPLY line are stated in literals, without the vocabulary of the encoders.
7. **Chunk independence** (`TcpFraming.ChunkingIrrelevantExactly`, `SplitExactly`). Any chunking has the effect of the whole
   stream if and only if no boundary cuts a CRLF the listener still waits for.
8. **Self-delimiting output** (`TcpOutput.OutputSelfDelimitingExactly`, `OutputInjective`,
   `ChatSurvivesTheNetwork`). The TCP output cuts back into its messages exactly when each chat line fits the
   buffer; then the bytes determine the messages, and chat text survives formatting, chunking and parsing. The same
   holds for whole runs of the TCP client (`TcpClient.RunHandlesStreamExactly`, `RunOutputCutsBack`), and what one user
   sends another sees, in order and nothing else (`UserSeesTheChat`).

## Where the code and its documentation differ

Against diagrams/protocol_fsm_client.dot:

- A refused `/auth` still moves the client from START to AUTH (src/state_start.c:23-27), an edge without output that the
  diagram does not have (`UdpDiagram.RefusedAuthHappens`).
- The diagram lets AUTH be repeated in AUTH only after a negative REPLY; the code takes an acceptable `/auth` there at
  any time, any number of times without an answer (`UdpDiagram.UncalledAuthHappens`). These two are the only inputs that
  leave the diagram, in both variants (`InputTakesEdgeExactly`, `TcpDiagram.InputExceptionsHappen`).
- A MSG in AUTH should end the client with an ERR; both variants display it (`ChatInAuthHappens`).
- A REPLY in OPEN should end the client with an ERR. It ends the UDP client without one, and a duplicate of the REPLY
  that opened the client is enough; the TCP client ignores it (`ReplyInOpenHappens`).
- A REPLY in START has no edge. It ends the UDP client as a failure (`UdpDiagram.ReplyInStartHappens`), as do a REPLY with
  a result above 1 and a datagram of unknown type (`StrangeDatagramHappens`). The TCP client shows a REPLY in START and
  stays; a line of unknown type ends it (`TcpDiagram.UnknownLineHappens`).
- A message that stays unconfirmed ends the UDP client in whatever state it is (`UdpDiagram.UnconfirmedExitHappens`).

Elsewhere:

- `validate_id` accepts the dot, which the grammar of identifiers does not.
- A chat line reaches `cmd_msg` through a buffer of 60000 bytes, so it is cut to 59999 without a message and the
  truncation branch of `cmd_msg` is never taken. In the TCP variant a line with |name| + |content| > 59991 loses its CRLF.
- REPLY content may contain line feeds by the grammar, but `sscanf` stops at the first one and skips leading white space.
- A CRLF that arrives in two chunks is not recognised; it ends up inside a line.
- `display_name` has 20 bytes, room for 19 characters and a terminator, but accepted names have up to 20
  (src/cmd_auth.c:65, src/cmd_rename.c:35): the copy leaves the array exactly for names typed with 20 bytes or more
  (`Commands.NameCopyFitsExactly`, `TwentyByteNameOverruns`). The model keeps the name as a string of at most 20.
- The TCP parsers copy into local buffers of 21 and 60001 bytes without a check (src/network_tcp.c:134, 197, 229, 249).
  The copies fit exactly for BYE lines of at most 29 bytes and for contents of at most 60000
  (`TcpText.ByeCopyFitsExactly`, `LongByeOverruns`, `TextCopyFitsExactly`, `ReplyCopyFitsExactly`).

## Model

| member | source | states |
|---|---|---|
| ConfirmedIds.InitialShape | src/main.c:189-198 | the freshly filled array satisfies the invariant and nothing is waited for |
| ConfirmedIds.AdvanceKeepsShape | src/network_udp.c:56-57 | taking the next identifier keeps shape and capacity, provided the previous message is confirmed |
| ConfirmedIds.RecordKeepsShape | src/id.c:15-43 | recording any issued identifier stays in bounds and keeps the invariant; it changes nothing or fills exactly the last slot, and the current identifier always ends up recorded |
| ConfirmedIds.ScanMeansSettled | src/network_udp.c:98-118 | the scan for the current message succeeds exactly when its slot is filled, or its identifier is 65535 or repeated |
| ConfirmedIds.LateConfirmIgnored | src/id.c:19-24 | late duplicates of recorded confirmations change nothing |
| ConfirmedIds.IndexWithinCapacity | src/id.c:26-39 | the index is within the capacity exactly up to 102400, and no scan for an issued identifier leaves the array |
| ConfirmedIds.ConfirmTable.constructor | src/main.c:189-198 | 100 slots, all filled with 65535, index 0 |
| ConfirmedIds.ConfirmTable.Next | src/network_udp.c:56-57 | the index grows by one, the slots stay |
| ConfirmedIds.ConfirmTable.Contains | src/network_udp.c:98-104 | the loop finds an identifier exactly when a slot before the index holds it, within bounds |
| ConfirmedIds.ConfirmTable.Add | src/id.c:15-43 | scan, doubling and write in place have the effect of `Record` |
| SeenIds.RememberAllIsFirstOccurrences | src/id.c:45-73 | over any stream the list is the stream's identifiers, once each, in order of first arrival |
| SeenIds.Pigeonhole | src/id.c:53-70 | distinct 16-bit identifiers cannot exceed 65536, which bounds the list |
| SeenIds.SeenTable.constructor | src/main.c:200-206 | an empty list with room for 100 |
| SeenIds.SeenTable.IsDuplicate | src/id.c:45-73 | true exactly for identifiers seen before; others are appended; count at most 65536, capacity 100 doubled and at most 102400, all copying together below the capacity |
| Validation.ValidateId | src/validation.c:15-29 | accepts exactly 1 to 20 of the 65 characters written out in `IdCharacter`: letters, digits, underscore, hyphen, dot |
| Validation.ValidateSecret | src/validation.c:31-45 | accepts exactly 1 to 128 of the 64 characters written out in `SecretCharacter`: letters, digits, underscore, hyphen |
| Validation.ValidateDisplayName | src/validation.c:47-61 | accepts exactly 1 to 20 characters from '!' to '~' |
| Validation.ValidateMessageContent | src/validation.c:63-77 | accepts exactly non-empty text of line feeds and characters from ' ' to '~' |
| Commands.DispatchIsSafe | src/main.c:257-277 | no input sends an invalid parameter or spoils the display name, and every input but a refused /auth in START takes an edge of the diagram, what the edge waits for aside |
| Commands.DispatchLeavesDiagramExactly | src/state_start.c:23-27 | the state changes without output, off the diagram, exactly when an /auth with unacceptable parameters is typed in START |
| Commands.BareAuthLeavesDiagram | src/state_start.c:23-27 | such an input: /auth without parameters |
| Commands.NameCopyFitsExactly | src/cmd_rename.c:24-35 | the copy of an accepted name stays inside the 20 bytes of the global exactly when fewer than 20 were typed |
| Commands.NameStaysUnlessCopied | src/cmd_auth.c:64-65 | no input but an accepted /auth or /rename changes the name |
| Commands.TwentyByteNameOverruns | src/cmd_rename.c:35 | a valid name of 20 bytes is accepted and does not fit |
| Commands.DispatchCarries | src/cmd_auth.c:20-81 | whatever is sent carries the typed parameters, cut to their limits, each in its place; only /auth and /rename touch the display name |
| Commands.DispatchTakesEffect | src/main.c:257-277 | a command with legal parameters in a state that permits it always has its effect, with the parameters uncut |
| Commands.DispatchEmitsExactly | src/main.c:257-277 | the inputs that send something, within the limits or cut to them, in the states that permit it, and only those |
| Commands.DispatchSameForBoth | src/cmd_auth.c:61-76 | both transports react alike to every input in every state |
| Commands.Session.RunAuth | src/cmd_auth.c:20-81 | clipping, validation in order, and update of name and state as specified |
| Commands.Session.RunJoin | src/cmd_join.c:17-55 | enters JOIN and emits only with a valid channel and name |
| Commands.Session.RunRename | src/cmd_rename.c:15-39 | the name changes only to a valid one |
| Commands.Session.RunMsg | src/cmd_msg.c:22-66 | emits the clipped line exactly when name and content are valid |
| Commands.Session.Run | src/main.c:257-277 | the dispatch on the state with the command functions has the effect of `Dispatch` |
| UdpCodec.EncodedId | src/network_udp.c:53-54 | bytes 1 and 2 of every encoded message give back its identifier |
| UdpCodec.DecodeEncode | src/deserialize.c:14-270 | decoding gives back every field exactly when the message reaches the minimum size, and a null pointer otherwise |
| UdpCodec.ShortMessagesReadAsNull | src/deserialize.c:42-239 | BYE without a name, REPLY without content, MSG of one character: read as null |
| UdpCodec.EncodeDecode | src/deserialize.c:94-239 | encoding a decoded datagram reproduces it up to its last terminator |
| UdpCodec.EncodePrefixFree | src/serialize.c:19-245 | no encoding is a prefix of another: equal buffers, even with trailing bytes, come from equal messages, AUTH and JOIN included |
| UdpCodec.WireLayout | src/serialize.c:19-245 | the bytes of every message in literals: type byte, identifier with the high byte first, fields with their terminators |
| UdpCodec.DecodeLayout | src/deserialize.c:14-270 | what every datagram is read as, in literals: type byte, minimum size, byte order, position of each field |
| UdpCodec.ServerReadsEncoded | src/serialize.c:19-245 | a reader of the published layouts gets every field of every message the client sends, AUTH and JOIN included, in the right order |
| UdpCodec.SerializeConfirm | src/serialize.c:19-39 | the buffer is exactly the CONFIRM layout, written out byte by byte after type byte 0 |
| UdpCodec.SerializeAuth | src/serialize.c:47-87 | writing field by field at a moving offset fills the buffer with exactly the AUTH layout, written out byte by byte after type byte 2 |
| UdpCodec.SerializeJoin | src/serialize.c:94-128 | the same for JOIN, written out byte by byte after type byte 3 |
| UdpCodec.SerializeMsg | src/serialize.c:135-169 | the same for MSG, written out byte by byte after type byte 4 |
| UdpCodec.SerializeErr | src/serialize.c:176-210 | the same for ERR, written out byte by byte after type byte 0xFE |
| UdpCodec.SerializeBye | src/serialize.c:217-245 | the same for BYE, written out byte by byte after type byte 0xFF |
| UdpCodec.GetField | src/deserialize.c:79-88 | `strlen` and `strcpy` from an offset read the C string there without leaving the received bytes |
| UdpCodec.DeserializeConfirm | src/deserialize.c:14-40 | the message, or null for fewer than 3 bytes |
| UdpCodec.DeserializeReply | src/deserialize.c:42-92 | the message, or null for fewer than 8 bytes |
| UdpCodec.DeserializeMsg | src/deserialize.c:94-145 | the message, or null for fewer than 7 bytes |
| UdpCodec.DeserializeErr | src/deserialize.c:147-198 | the message, or null for fewer than 7 bytes |
| UdpCodec.DeserializeBye | src/deserialize.c:200-239 | the message, or null for fewer than 5 bytes |
| UdpCodec.DeserializePing | src/deserialize.c:241-270 | the message, or null for fewer than 3 bytes |
| UdpClient.WellFormedExactly | src/deserialize.c:14-270 | the datagrams the model lets arrive are exactly those that are read without leaving them, and those of a type nobody reads |
| UdpClient.WellFormedDecodes | src/network_udp.c:130-276 | on well-formed datagrams the dispatched deserializer never returns null and reads the announced type and identifier |
| UdpClient.InitialIs | src/main.c:56-83 | the client starts in START under the name "unknown", with nothing sent or seen |
| UdpClient.StepKeepsSendInv | src/network_udp.c:53-127 | every step of either thread keeps the invariant over array, index, emitted datagrams and the sender's position, and none is undefined |
| UdpHistory.StepKeepsConfirmsBalance | src/network_udp.c:160-276 | every step keeps the CONFIRMs sent equal to those called for, by identifier and in order |
| UdpHistory.StepKeepsDisplaysOnce | src/network_udp.c:169-171 | every step keeps the displayed identifiers equal to the list and to the first arrivals |
| UdpHistory.StepKeepsRounds | src/network_udp.c:59-109 | every step keeps the copies of a message identical, the tries equal to copies plus failed attempts and at most `retransmissions + 1`, with one full pause per copy |
| UdpHistory.StepKeepsRoundsMatch | src/network_udp.c:53-57 | each transmission belongs to the message emitted last |
| UdpHistory.PauseLength | src/network_udp.c:84-87 | the nanosecond part is legal and each pause lasts the configured timeout, to the nanosecond |
| UdpHistory.StepTakesOwnEdge | src/network_udp.c:142-158 | the main thread takes only START to AUTH and OPEN to JOIN, the listener only AUTH to OPEN and JOIN to OPEN |
| UdpHistory.StepKeepsGates | src/state_auth.c:49-53 | OPEN and JOIN, and every MSG and JOIN emitted, come after a positive REPLY handled in AUTH |
| UdpHistory.StepKeepsLegal | src/cmd_msg.c:26-61 | everything emitted encodes a request with valid parameters under its running number |
| UdpNetwork.InboundIsHonest | src/id.c:41-42 | a confirmation from a server that confirms only what it received always names an issued identifier, so the write never lands before slot 0 |
| UdpNetwork.RunKeepsInv | src/network_udp.c:53-127 | the invariant over client, network and server holds after every run |
| UdpTheorems.DeliveryExactlyBelowSentinel | src/network_udp.c:53-127 | a normal return implies reception in every run if and only if the message number is below 65535 |
| UdpTheorems.LostYetReturned | src/main.c:196-198 | for every number from 65535 on, a run in which the send returns and the datagram was never received |
| UdpTheorems.ReadyIsReachable | src/network_udp.c:53-127 | runs with any number of completed sends exist |
| UdpTheorems.EarlierMessagesReceived | src/network_udp.c:106-123 | at any moment every message numbered below 65535 but the one in flight has been received |
| UdpTheorems.IdDiscipline | src/network_udp.c:53-57 | the k-th message carries identifier k modulo 65536 and legal parameters, and the index counts the messages |
| UdpTheorems.ArraysStayInBounds | src/id.c:15-43 | no run is undefined; the array keeps its shape; index within capacity exactly up to 102400 |
| UdpTheorems.DisplaysAreFirstArrivals | src/network_udp.c:169-213 | each identifier is displayed at most once, in order of first arrival, none is left out |
| UdpTheorems.ConfirmsAnswerArrivals | src/network_udp.c:160-276 | CONFIRMs answer PING, ERR, BYE, unknown types, MSG outside START and valid REPLY in AUTH or JOIN, one each, in order |
| UdpTheorems.RetriesAreBounded | src/network_udp.c:59-127 | identical copies, at most `retransmissions + 1` attempts, blocked for at most (`retransmissions` + 1) times the timeout |
| UdpTheorems.SendsFollowWelcome | src/state_auth.c:49-53 | every MSG and JOIN is preceded by a positive REPLY handled in AUTH |
| UdpTheorems.StatesNeverGoBack | src/state_start.c:23-27 | START is not entered again, nor AUTH after OPEN |
| UdpAnswers.ScanExactlyWhenConfirmed | src/network_udp.c:98-118 | in every run the scan for the message sent last finds it exactly when a CONFIRM with its identifier was processed or its number is 65535 or more |
| UdpAnswers.EarlierMessagesConfirmed | src/network_udp.c:106-123 | at most one message is unconfirmed: the CONFIRM of every earlier one below 65535 was processed |
| UdpAnswers.RecordFills | src/id.c:19-42 | recording a confirmation fills the slot of its identifier and no other |
| UdpAnswers.GivesUpOnlyAfterAllAttempts | src/network_udp.c:59-124 | termination as unconfirmed comes only after exactly `retransmissions + 1` attempts, a pause after each copy, and no CONFIRM processed |
| UdpAnswers.UserSeesExactly | src/network_udp.c:142-215 | the output is exactly, field by field and in order, what the datagrams received call for |
| UdpAnswers.HearLogsExactly | src/network_udp.c:130-277 | one datagram adds to the log what the user is to see of it and then the CONFIRM it calls for, and nothing else |
| UdpAnswers.ExitsAreExplained | src/network_udp.c:130-277 | the process ends for a REPLY in START or OPEN or out of range, ERR, BYE, an unknown type, an unconfirmed message or its own BYE, with the exit code of each, and for nothing else |
| UdpAnswers.TypedReachesServer | src/network_udp.c:53-127 | a typed /auth, /join or chat line numbered below 65535, once its send is over, was received by the server, which reads the typed parameters from it |
| UdpSends.AttemptExactly | src/network_udp.c:60-69 | an attempt with tries left sends a copy or records its failure, and pauses only after a copy; without, it leaves the loop |
| UdpSends.WakeDecides | src/network_udp.c:98-109 | in every run, state and try: after a pause the next step is the last scan if the message is confirmed, and another attempt if it is not |
| UdpSends.SendEndsExactly | src/network_udp.c:112-124 | the last scan returns, or ends the process with code 0 after BYE, if the message is confirmed, and exits with code 1 if not |
| UdpSends.ConfirmedIsNotSentAgain | src/network_udp.c:60-109 | over every run: if the CONFIRM of one of the first 65535 messages was processed before a pause ends, no attempt to send it follows |
| UdpSends.NeverStuck | src/network_udp.c:59-127 | in no run is the main thread without its next step, nor the listener deaf |
| UdpSends.SendsEnd | src/network_udp.c:59-127 | every step of a send ends it or lowers a bound of three steps per try, which the listener leaves alone |
| UdpSends.QuitSaysBye | src/main.c:96-103 | the end of the input hands over the bytes of a BYE with the next number and the current name |
| UdpDiagram.InputTakesEdgeExactly | diagrams/protocol_fsm_client.dot:25-55 | a line of input takes an edge of the diagram that is due, with its output, if and only if it is neither a refused /auth in START nor an acceptable /auth in AUTH without a negative REPLY since the last AUTH |
| UdpDiagram.InputsFollowDiagramExactly | diagrams/protocol_fsm_client.dot:25-55 | the same for all inputs of a run |
| UdpDiagram.RefusedAuthHappens | src/state_start.c:23-27 | the first exception is possible as the first input of a run |
| UdpDiagram.UncalledAuthHappens | src/state_auth.c:18-22 | the second exception happens after any number of AUTH messages, none of them answered |
| UdpDiagram.HearTakesEdgeExactly | diagrams/protocol_fsm_client.dot:31-58 | on a datagram the client goes where the diagram goes, and stays put where it has no edge, exactly outside of: a REPLY in START or OPEN or out of range, a MSG in AUTH, an unknown type |
| UdpDiagram.RunStepFollowsExactly | diagrams/protocol_fsm_client.dot:25-58 | in every run a step of either thread follows the diagram if and only if it is none of the listed exceptions, the unconfirmed exit included |
| UdpDiagram.ReplyInStartHappens | src/network_udp.c:143-147 | a run in which a REPLY arrives first and ends the client |
| UdpDiagram.StrangeDatagramHappens | src/network_udp.c:247-276 | runs in which a REPLY out of range or a datagram of unknown type arrives in START or AUTH and ends the client |
| UdpDiagram.UnconfirmedExitHappens | src/network_udp.c:112-124 | a run in which every attempt fails and the client is about to exit in AUTH |
| UdpDiagram.ChatInAuthHappens | src/network_udp.c:161-182 | a run in which a MSG arrives in AUTH |
| UdpDiagram.ReplyInOpenHappens | src/state_open.c:41-59 | a run in which the network repeats the positive REPLY and the copy ends the client |
| UdpProcess.PerformKeepsLog | src/network_udp.c:27-277 | after any steps of the code, confirmations, displays, retries and gates are in order |
| UdpProcess.Process.constructor | src/main.c:56-83 | the globals start as in the initial state of the step machine |
| UdpProcess.Process.HandleConfirm | src/network_udp.c:134-141 | the CONFIRM branch updates the array in place as specified |
| UdpProcess.Process.HandleReply | src/state_auth.c:43-73 | the handlers of AUTH, OPEN and JOIN change state, fate and log as specified |
| UdpProcess.Process.HandleText | src/network_udp.c:167-182 | display unless seen, then CONFIRM in any case |
| UdpProcess.Process.ProcessDatagram | src/network_udp.c:130-277 | the dispatch over a terminated receive buffer has the effect of one listener step |
| UdpProcess.Process.HearAll | src/network_udp.c:306-369 | the listener loop is a sequence of listener steps, up to an exit |
| UdpProcess.Process.Pass | src/network_udp.c:59-109 | the listener may run before each attempt as well |
| UdpProcess.Process.Try | src/network_udp.c:60-109 | one pass through the retry loop is an attempt, what arrives during the pause, and a scan |
| UdpProcess.Process.Retry | src/network_udp.c:59-127 | the whole loop, against any network behaviour, is a sequence of steps that ends confirmed or with the process gone |
| UdpProcess.Process.ReturnOrExit | src/network_udp.c:112-124 | the last scan returns or exits, never returns unconfirmed |
| UdpProcess.Process.Begin | src/cmd_auth.c:73-77 | encoding with the next identifier and advancing the index |
| UdpProcess.Process.RunCommand | src/main.c:216-281 | a line of input runs to the end of its send as a sequence of steps |
| UdpProcess.Process.Quit | src/main.c:85-107 | the end of input sends BYE as a sequence of steps and always ends the process |
| TcpText.TerminatorSurvives | src/network_tcp.c:94-120 | a valid message is sent with its CRLF exactly when it is not a chat line with name and content over 59991 bytes |
| TcpText.LongChatLosesTerminator | src/network_tcp.c:108-113 | a valid chat line that goes out without its CRLF |
| TcpText.SeparableMeans | src/network_tcp.c:182 | the marker can end a name exactly when " IS " is not in the name followed by one space |
| TcpText.NamesNotReadBack | src/network_tcp.c:182-192 | a name with the marker inside and a name of 21 bytes, which are not read back |
| TcpText.RepliesNotReadBack | src/network_tcp.c:134 | an empty content, a leading space and a second line, which are not read back |
| TcpText.ChatRoundTrip | src/network_tcp.c:170-201 | name and content are read back exactly for names of at most 20 bytes that the marker " IS " can end |
| TcpText.ValidNamesRoundTrip | src/network_tcp.c:203-236 | valid names are read back whatever the content, markers included, for MSG and ERR |
| TcpText.ChatLineShape | src/network_tcp.c:170-201 | every line displayed is the format around a name, clipped to 20, and the content |
| TcpText.ByeCopyFitsExactly | src/network_tcp.c:235-249 | the unchecked copy of a BYE name stays inside its 21 bytes exactly for lines of at most 29 bytes |
| TcpText.LongByeOverruns | src/network_tcp.c:249 | a BYE line of 30 bytes whose copy does not fit |
| TcpText.TextCopyFitsExactly | src/network_tcp.c:186-197 | the copies of a MSG or ERR fit exactly for contents of at most 60000 bytes |
| TcpText.ReplyCopyFitsExactly | src/network_tcp.c:130-137 | the conversion of a REPLY content fits exactly up to 60000 bytes |
| TcpText.ReplyRoundTrip | src/network_tcp.c:128-168 | a REPLY is read back exactly when its content is a non-empty single line not starting with white space |
| TcpFraming.SplitExactly | src/network_tcp.c:316-348 | the reference cut is the only way to write a stream as terminated lines and a rest free of terminators |
| TcpFraming.AbsorbTwo | src/network_tcp.c:316-374 | two chunks act like one unless the boundary cuts a CRLF that is still looked for |
| TcpFraming.CutTerminatorIsMissed | src/network_tcp.c:316 | the shortest failing stream: CR and LF in two chunks |
| TcpFraming.CutPoisons | src/network_tcp.c:316 | a CRLF cut by a boundary ends up inside a line or in the carried buffer |
| TcpFraming.ChunkingIrrelevantExactly | src/network_tcp.c:296-375 | the chunked stream is handled like the whole one, up to the line that ends the client, if and only if no such cut occurs |
| TcpOutput.OutputSelfDelimitingExactly | src/network_tcp.c:94-120 | a list of valid messages, concatenated, cuts back into exactly its lines if and only if each fits |
| TcpOutput.LongChatMeltsIntoNext | src/network_tcp.c:108-113 | a list of valid messages that does not cut back |
| TcpOutput.OutputInjective | src/network_tcp.c:94-120 | two lists of valid fitting messages with the same bytes are the same list |
| TcpOutput.ChatSurvivesTheNetwork | src/network_tcp.c:286-388 | chat messages framed, chunked and parsed come out with the same names and contents in order exactly when no boundary cuts a CRLF |
| TcpListener.FindCrlf | src/network_tcp.c:316 | the search on the C string in the buffer finds the first CRLF or shows there is none |
| TcpListener.ProcessMessage | src/network_tcp.c:256-284 | the dispatch with its searches computes the verdict on a line |
| TcpListener.ReadReply | src/network_tcp.c:128-137 | the conversions of the `sscanf` format, done byte by byte, give the verdict on a REPLY line |
| TcpListener.HandleVerdict | src/network_tcp.c:138-167 | a positive REPLY opens from AUTH and JOIN, a negative one from JOIN only |
| TcpListener.Listener.Reserve | src/network_tcp.c:319-336 | after allocation the content is kept, the new segment with its terminator fits, the capacity does not shrink |
| TcpListener.Listener.Append | src/network_tcp.c:338-339 | `strcat` within the capacity appends the segment and keeps the buffer terminated |
| TcpListener.Listener.CompleteLine | src/network_tcp.c:316-348 | one line is completed from carry and segment, handed over, and the buffer cleared |
| TcpListener.Listener.StoreTail | src/network_tcp.c:351-374 | the unfinished tail is added to the carry |
| TcpListener.Listener.HandleLine | src/network_tcp.c:256-284 | a line is handed over once, moves the state and the output as its verdict says, and ends the client exactly if it must |
| TcpListener.Listener.Feed | src/network_tcp.c:296-375 | a whole chunk, up to its first NUL if it has one, has the effect of `Absorb`, within the capacities, and its lines have moved the state and the output as their verdicts say |
| TcpClient.ChunksJoin | src/network_tcp.c:296-375 | two chunks in a row leave the whole client, with its state and log, as their concatenation does, unless they cut a CRLF it waits for |
| TcpClient.RunHandlesStreamExactly | src/network_tcp.c:286-388 | whatever is typed meanwhile, a run handles the lines of the whole stream exactly when no boundary cuts a CRLF it waits for |
| TcpClient.SendsFollowWelcome | src/network_tcp.c:139-152 | every MSG and JOIN of a run comes after a positive REPLY line handled in AUTH, whatever bytes arrive |
| TcpClient.RunShowsItsLines | src/network_tcp.c:128-231 | in every run the output is what the handled lines call for, in order |
| TcpClient.UserSeesTheStream | src/network_tcp.c:286-388 | without a cut CRLF the output is what the lines of the whole stream call for |
| TcpClient.UserSeesTheChat | src/network_tcp.c:108-201 | valid chat messages, framed by the sender and relayed, are shown with their names and contents, in order and nothing else |
| TcpClient.ExitsAreExplained | src/network_tcp.c:233-284 | the client has ended exactly if it said BYE or handled an ERR, a BYE or an unknown line, and such a line is the last one handled |
| TcpClient.RunOutputCutsBack | src/network_tcp.c:94-120 | the bytes sent in a run cut back into exactly its messages if and only if each of them fits |
| TcpClient.Process.constructor | src/main.c:56-83 | the globals start as in the initial client |
| TcpClient.Process.RunCommand | src/main.c:257-277 | a line of input has the effect of the input step and sends the framed request |
| TcpClient.Process.Quit | src/main.c:85-107 | the end of the input sends BYE and ends the client |
| TcpClient.Process.Receive | src/network_tcp.c:286-388 | one return of `recv` has the effect of the receive step |
| VariantRuns.UdpRunIsAutomaton | src/network_udp.c:142-158 | in every run of the two UDP threads, state, name and exit by a REPLY out of place are those the automaton computes from the commands and replies taken |
| VariantRuns.UdpRunAgreesExactly | src/state_join.c:49-63 | a UDP run is where the TCP automaton would be exactly when it heard no REPLY outside AUTH and JOIN, in particular while it runs |
| VariantRuns.TcpRunIsAutomaton | src/network_tcp.c:139-167 | in every run of the TCP client, state and name are those the automaton computes from the commands and reply lines |
| VariantRuns.RunsOfBothAgree | src/state_join.c:49-63 | a UDP and a TCP run with the same commands and replies have the same state and name as long as the UDP client runs |
| TcpDiagram.InputTakesEdgeExactly | diagrams/protocol_fsm_client.dot:25-55 | a line of input takes an edge of the diagram that is due exactly outside of the two cases of /auth |
| TcpDiagram.InputExceptionsHappen | src/state_start.c:23-27 | both cases happen |
| TcpDiagram.LineFollowsExactly | diagrams/protocol_fsm_client.dot:31-58 | on a line the client goes where the diagram goes, and stays put where it has no edge, exactly outside of: a REPLY in OPEN, a MSG in AUTH, an unknown line |
| TcpDiagram.ReceiveTakesEdgesExactly | src/network_tcp.c:286-388 | the same for all lines that a chunk completes |
| TcpDiagram.ReceiveLine | src/network_tcp.c:312-348 | a whole line in one chunk is handled in the state it finds, and nothing else is |
| TcpDiagram.ChatInAuthHappens | src/network_tcp.c:170-201 | a run in which a MSG is displayed in AUTH |
| TcpDiagram.ReplyInOpenHappens | src/network_tcp.c:142-154 | a run in which a REPLY is ignored in OPEN |
| TcpDiagram.UnknownLineHappens | src/network_tcp.c:272-283 | a run that a line of unknown type ends |
| TcpServer.Words | src/network_tcp.c:94-126 | the words of the protocol, spelled out |
| TcpServer.ServerReadsBody | src/network_tcp.c:94-120 | a server that follows the grammar reads every field of every valid message in its place: username, display name, secret; channel, display name; name, content |
| TcpServer.FrameExactly | src/network_tcp.c:94-120 | what goes out is the line with CR and LF, cut after 60006 bytes |
| TcpServer.ServerHearsTheRun | src/network_tcp.c:94-120 | over every run in which all messages fit, the lines of the bytes sent are read as exactly the requests sent |
| TcpServer.InputIsSent | src/main.c:257-277 | every input sends exactly what the commands make of it |
| TcpServer.TypedIsRead | src/cmd_auth.c:64-72 | a typed command in order adds one message, from which the server reads the typed parameters |
| TcpServer.QuitIsRead | src/main.c:89-93 | the end of the input adds a BYE with the current name |
| TcpServer.UnknownLines | src/network_tcp.c:256-284 | a line is unknown exactly if it starts with none of the four words |
| TcpServer.TextLinesExactly | src/network_tcp.c:170-231 | MSG and ERR lines are read as the name before the first " IS ", cut to 20 bytes, and what follows it |
| TcpServer.ShapedLinesAreRead | src/network_tcp.c:134 | every line of the format of a REPLY, whatever its white space, is read as its result and content |
| TcpServer.ReadRepliesAreShaped | src/network_tcp.c:134 | and only such lines are |
| TcpServer.RunShowsWhatIsOwed | src/network_tcp.c:128-231 | over every run the output is, line by line, the outcome of a REPLY, a chat message or an error, and nothing for other lines |
| TcpServer.ReplyIsShown | src/network_tcp.c:139-157 | a REPLY line, OK or NOK, adds exactly its outcome and content to the output |
| TcpServer.ErrorIsShown | src/network_tcp.c:203-231 | an ERR line adds exactly its sender and content |
| TcpServer.OthersAreNotShown | src/network_tcp.c:233-284 | a BYE, malformed or unknown line adds nothing |
| Variants.EarlyReplyParts | src/network_udp.c:143-147 | a REPLY before any command ends the UDP variant and leaves the TCP variant in START |
| Variants.InputDependsOnStateOnly | src/main.c:257-277 | the UDP side of the comparison reacts to input as every UDP client in that state does |
| Variants.VariantsAgreeExactly | src/state_join.c:49-63 | after any commands and replies both variants are in the same state exactly when every REPLY came in AUTH or JOIN; otherwise the UDP client has exited |
| Variants.ReplyDependsOnStateOnly | src/state_auth.c:43-61 | the UDP side of the comparison is the real reply handler, whatever its tables and log |

## Left out

- Sockets, name resolution, signals and thread management; they appear as steps of the network or not at all. A SIGINT during a send is not modelled.
- Data races inside a step, such as `realloc` in the listener during a scan in the main thread.
- Allocation failures and the freeing of memory.
- Argument parsing, `/help`, debug output and the wording of printed messages; the split of an input line into tokens.
- UdpCodec.DeserializeMsg: requires the terminator of the name field; without it the C code reads stale bytes behind the datagram, which are not modelled.
- UdpCodec.DeserializeErr: the same.
- UdpProcess.Process.ProcessDatagram: does not model malformed datagrams (too short, or without the terminator of the first field), for which the C code dereferences null or reads stale bytes: `UdpClient.React` marks them `Undefined` and the network does not produce them. Nor does it model the ERR message the listener tries to send after an unknown type.
- UdpAnswers.UserSeesExactly: is about messages and replies; the local "ERROR: ..." lines, such as the one for a MSG in START, are wording of the user interface.
- Commands.Session.RunAuth: keeps the display name as a string; that the copy of 20 bytes overruns the global by one is stated by `Commands.NameCopyFitsExactly`, what the overrun does to the byte behind it is not modelled.
- Commands.Session.RunRename: the same.
- The ERR message of the TCP client before it exits on an unknown line; the exit is modelled.
- The end of the TCP connection: the listener stops and later messages are not sent.
- The switch to the server's dynamic port: one guarded assignment.
- The 5-second limit for a REPLY, which the client does not implement.
- What a copy that overruns a buffer of the TCP parsers does; when it happens is stated (`TcpText.CopiesFit`).
- `truncate_message_content`, which is never reached.
- UdpCodec.GetField: requires the terminator that `udp_listener` appends, as the source does.
- TcpFraming.ChunkingIrrelevantExactly: is about streams of C strings; a chunk with a NUL byte counts up to the NUL (`TcpListener.Listener.Feed`), so the property is for streams without NUL.

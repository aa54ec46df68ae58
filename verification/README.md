# Verified model of the aitftp transfer protocol

`aitftp` moves files over TFTP: a sender keeps a window of numbered blocks in flight, a receiver
acknowledges them cumulatively, and everything travels in datagrams that the network may lose,
repeat or reorder. Block numbers are 16 bits wide and wrap, so any long file reuses them many
times. This project models both ends and the layers around them, and proves that the file that
arrives is the file that was sent.

## How the project is organised

| file | part |
|---|---|
| `Basics`, `Utf8` | machine integers, wrapping arithmetic, results, UTF-8 validity |
| `Netascii` | streaming text translation, with the decoder's carry |
| `Blocks` | cutting a byte string into full blocks and one short one |
| `Window` | cumulative acknowledgement over wrapping block numbers |
| `Transfer` | sender and receiver as step functions over what they hear |
| `Unordered`, `Fifo` | the two ends over two kinds of network, with their inductive invariants |
| `Liveness` | recovery after loss, loss-free runs, bounded retransmission |
| `Options`, `Packets`, `Codec` | option sets, wire format, and the encoder and decoder as they run |
| `Negotiation`, `Handshake` | granting options; the read handshake with many server tasks |
| `Environment`, `Endpoints` | sockets and files; whole runs of one endpoint |
| `Server`, `Client` | the transfer loops as imperative classes and methods |
| `Programs` | the programs inside the networks: what the ends of a network run receive, become and send |
| `EndToEnd`, `Limits` | the layers together; where the promises end |

Positions are absolute counts: `base` blocks are acknowledged, blocks `base .. sent` are in flight,
`got` blocks were accepted. Endpoints compare only the 16-bit numbers; the absolute counts and the
positions carried by modelled datagrams exist to state what is true. A socket is a list of the
events its waits will return plus a record of what was sent; a wait returns silence (the deadline
passed) or a datagram from the peer. A run over a finite list of events may end with the status
`Running`, which means that the program is still waiting.

The loops are proved equal to the step functions (`Server`, `Client`); the step functions are put
into networks and the protocol properties are proved there (`Unordered`, `Fifo`, `Liveness`,
`Handshake`). `Programs` closes the circle in both directions: the ends of a network run are runs
of the programs on what their sockets returned, and what the programs put on their sockets is
exactly what the network carries from them. Only the ERROR with which a server gives up a transfer
is not put on the channels of `Fifo`; there an ERROR may reach either end at any time.

The functions that the loops are proved equal to are fixed in turn, without reference to
themselves: datagrams by their bytes, waits and handshakes by which event of a list decides them,
retries by exact counts, names by their spelling, and both directions of a transfer by a run that
succeeds (`EndToEnd.DownloadSucceeds`, `EndToEnd.UploadSucceeds`).

Findings worth knowing about the code, each with a concrete run in `Limits`:

- A delayed copy of the handshake's ACK(0) can be taken for an acknowledgement of everything in
  flight when the window is very large; the sender then reports success although blocks are
  missing. A client that asks for 8-byte blocks and a window of 65535 can lose data of any file of
  24 bytes in this way. The exact limit is `Window.StaleAckIgnoredIff`.
- A write request whose OACK is lost can leave the two sides with different block sizes, because
  the server's retransmission is ACK(0) (src/server.rs:672), which the client takes for "no
  options" (src/client.rs:421). The server then takes the first full block for the last one.
- The receiver exits after its last acknowledgement; if that is lost the sender times out although
  the file is complete.

The comment at src/server.rs:555 gives the interval `(ack - windowsize, ack]`; the code excludes
`bn == ack`, which its caller handles first. The model follows the code.

## Model

| member | source | states |
|---|---|---|
| Netascii.ToWire | src/netascii.rs:30-45 | the encoder appends the wire form of its input and consumes all of it |
| Netascii.EncodedLength | src/netascii.rs:30-45 | every CR and every LF of the source costs exactly one extra wire byte |
| Netascii.FromWire.Translate | src/netascii.rs:64-82 | the decoder's output and carry after a call are those of the byte-by-byte decoder started from the carry of the previous call |
| Netascii.FromWire.FinishInto | src/netascii.rs:86-91 | a held-back CR is flushed and the carry cleared |
| Netascii.DecodeConcat | src/netascii.rs:64-82 | decoding in two pieces, cut anywhere, equals decoding the whole |
| Netascii.RoundTripWhole | src/netascii.rs:23-92 | decoding an encoding gives the source back with nothing held back |
| Netascii.DecodeIsReading | src/netascii.rs:64-91 | the streaming decoder and its final flush read every wire string, well formed or not, as the front-to-back reading does: CR LF is a line end, CR NUL a CR, a CR before anything else or at the end stands for itself |
| Netascii.ReencodeIffCanonical | src/netascii.rs:64-91 | the tolerant decoder loses nothing if and only if every CR on the wire is followed by LF or NUL and every LF preceded by CR |
| Blocks.DecodeBlocksIsDecode | src/netascii.rs:48-92 | feeding blocks one by one equals decoding their concatenation |
| Blocks.NetasciiRoundTrip | src/netascii.rs:64-91 | for every division of the wire form into blocks, even inside CR LF, block-wise decoding gives the source and the final flush adds nothing |
| Blocks.BlocksAreRead | src/netascii.rs:64-91 | the same for any sequence of blocks, read as one string |
| Blocks.SplitShape | src/server.rs:414-453 | the blocks concatenate to the wire bytes, number length / size + 1, and only the last is short |
| Blocks.SplitUnique | src/client.rs:606-634 | there is only one such division, so it cannot depend on how the file was read |
| Window.ConsumeAck | src/client.rs:501-519 | on a consecutive queue the loop pops, in closed form, 1, min(diff + 1, length) or 0 blocks and reports whether it popped |
| Window.PopAcknowledged | src/server.rs:529-560 | the server's loop computes the same function of queue, number and window |
| Window.FreshAckPopsExactly | src/server.rs:529-553 | an acknowledgement inside the window pops exactly the blocks it covers, across wraps |
| Window.StaleAckIgnoredIff | src/server.rs:557-560 | a stale acknowledgement is ignored if and only if it is at most 65536 - window blocks behind the front |
| Window.StaleBlockAcceptedIff | src/server.rs:677-677 | a stale block is taken for the expected one if and only if it is exactly 65536 positions old |
| Window.NumbersDistinct | src/server.rs:455-468 | no two blocks of a window share a number |
| Transfer.ConsistentStep | src/server.rs:675-702 | after any input the expected number follows the acknowledged one, the window counter stays below the window while receiving, and every acknowledgement sent names the last accepted block |
| Transfer.WrittenAll | src/server.rs:683-693 | after the last block and the final flush the disk holds the file, in octet and netascii mode |
| Unordered.AckStep | src/server.rs:508-514 | an acknowledgement not too old moves the sender exactly to what the receiver had accepted, or not at all |
| Unordered.DataStep | src/server.rs:675-702 | a block not too old is accepted exactly when it is the next one of the file, and the disk stays the decoding of the accepted blocks |
| Unordered.InvStep | src/server.rs:486-524 | every step of the network with loss, repetition and age-bounded reordering keeps the protocol invariant |
| Unordered.Safety | src/server.rs:486-560 | in every such run, for every window and file length, the disk is at every moment the decoding of exactly the first accepted blocks, flushed exactly when the receiver is done; the receiver is done exactly when it has accepted all; a successful sender has a finished receiver |
| Fifo.InvStep | src/client.rs:441-499 | every step over order-preserving channels keeps the invariant, channel order included |
| Fifo.StepRefines | src/client.rs:441-499 | each channel step is matched by a step of the unordered network that respects the age bounds, or by none |
| Fifo.RunRefines | src/client.rs:332-372 | every run over order-preserving lossy channels has a matching unordered run with the same ends |
| Fifo.Safety | src/client.rs:332-372 | the same over order-preserving channels, with no further assumption |
| Liveness.DataKeepsPromise | src/server.rs:677-702 | once a window is on its way to an unfinished receiver, each delivered block brings an advancing acknowledgement nearer or produces it, even in mid-window |
| Liveness.DeliverEverything | src/server.rs:493-522 | delivering everything in order, stale acknowledgements included, completes the transfer |
| Liveness.NoDeadlock | src/server.rs:493-522 | from every reachable state with an unfinished receiver and one sender timeout left, one timeout and loss-free delivery complete the transfer with the right file |
| Liveness.LossFreeRounds | src/client.rs:347-360 | every loss-free run that ends in success delivers each of the N blocks once and takes exactly as many acknowledgements as there are rounds |
| Liveness.LossFreeRoundStart | src/server.rs:455-468 | at the start of every round of every loss-free run the channels hold the fresh window and nothing else and the receiver's counter is zero; at the end nothing is left |
| Liveness.LossFreeRunExists | src/client.rs:347-360 | there is a loss-free run that completes the transfer with the right file |
| Liveness.RoundsIsCeiling | src/client.rs:357-360 | the number of rounds is N / window rounded up |
| Liveness.SenderStops | src/server.rs:486-524 | fed timeouts and advancing acknowledgements only, the sender sends at most N * (retries + 1) windows |
| Options.ParseUnsignedIff | src/proto/options.rs:81-113 | a text parses to n if and only if it is an optional plus sign, leading zeros and the decimal form of n, and n is within the bound |
| Options.LowerIff | src/proto/options.rs:189-189 | folding to lower case identifies exactly the texts that differ in the case of ASCII letters only |
| Options.ParseModeIff | src/proto/options.rs:28-37 | a text names a mode if and only if it is "netascii", "octet" or "binary" with each letter in either case; any other is refused with that text |
| Options.ParseIff | src/proto/options.rs:81-113 | a name and a value parse to an option if and only if the name spells its kind, each letter in either case, the value is its number in decimal and the number is within the limits of the RFCs |
| Options.ParseEncoded | src/proto/options.rs:63-113 | a printed option parses back to itself exactly when its value is in range |
| Options.ParseSound | src/proto/options.rs:81-113 | what parses has the name it was parsed under, ignoring case, and a value in range |
| Options.AccessorsMeaning | src/proto/options.rs:154-180 | each accessor returns a value exactly when that option is in the set |
| Options.OptionSet.Insert | src/proto/options.rs:142-152 | overwrites the option of the same name in place, else appends |
| Options.InsertedMeaning | src/proto/options.rs:142-152 | inserting keeps names distinct, makes the new value the one of its kind and leaves all others |
| Options.OptionSet.OfPairs | src/proto/options.rs:184-204 | the two loops over names and values compute the specified set |
| Options.FromPairsMeaning | src/proto/options.rs:182-204 | an option is present if and only if the last occurrence of its name, compared letter by letter without regard to case, parses, with that value, in order of first occurrence |
| Options.OptionsHeard | src/proto/options.rs:182-204 | the same with every spelling written out: an option is taken over exactly when the last pair that spells its kind carries its allowed value in decimal |
| Options.FromPairsIgnoresCase | src/proto/options.rs:189-194 | changing the case of letters in names changes nothing |
| Options.UnknownDropped | src/proto/packet.rs:272-290 | a pair that spells no known option might as well not be there |
| Options.FromPairsUnique | src/proto/options.rs:182-204 | these conditions determine the option set |
| Packets.TakePut | src/proto/packet.rs:185-194 | a NUL-terminated string is read back with exactly the rest left over |
| Utf8.ValidIff | src/proto/packet.rs:190-190 | the strings accepted as UTF-8 are exactly the encodings of sequences of Unicode scalar values |
| Packets.TakeCstrRefused | src/proto/packet.rs:185-194 | a string is refused for want of NUL exactly when there is none, and as invalid exactly when what precedes the NUL is not UTF-8 |
| Packets.RequestRoundTrip | src/proto/packet.rs:93-139 | a request with distinct options arrives with exactly the options in range, in order |
| Packets.DecodedIsWellFormed | src/proto/packet.rs:114-194 | whatever decodes is well formed |
| Packets.RoundTripIff | src/proto/packet.rs:39-112 | decode(encode(p)) is p if and only if p is well formed |
| Packets.DecodeStable | src/proto/packet.rs:39-53 | for arbitrary bytes that decode, encoding and decoding again gives the same packet |
| Packets.DatagramKinds | src/proto/packet.rs:39-53 | the kind of every datagram by its first two bytes, unknown opcodes and short datagrams with their errors, and DATA and ACK byte by byte |
| Packets.TransferBytes | src/proto/packet.rs:69-77 | DATA and ACK are 0 3 and 0 4, the block number high byte first, and the data |
| Packets.ErrorBytes | src/proto/opcode.rs:33-60 | ERROR is 0 5, the code as numbered from 0 to 8, the text and NUL |
| Packets.NegotiationBytes | src/proto/packet.rs:93-112 | RRQ, WRQ and OACK are 0 1, 0 2 and 0 6 followed by file name, mode and options as literal NUL-terminated strings in order |
| Packets.DigitsSample | src/proto/options.rs:72-79 | numbers are printed in decimal, most significant digit first |
| Packets.RequestIff | src/proto/packet.rs:114-139 | exactly which bytes are a request, and for what |
| Packets.RequestRefused | src/proto/packet.rs:114-139 | an unfinished file name or mode and an unknown mode are refused as such, whatever follows |
| Packets.OackIff | src/proto/packet.rs:170-180 | exactly which bytes are an OACK |
| Packets.ErrorIff | src/proto/packet.rs:160-168 | exactly which bytes are an ERROR, unknown codes counting as 0 |
| Codec.PutOptions | src/proto/packet.rs:103-106 | the option loop appends name and value strings in order |
| Codec.EncodeInto | src/proto/packet.rs:56-91 | appends exactly the encoding, leaving what was in the buffer |
| Codec.TakeString | src/proto/packet.rs:185-194 | reads up to the first NUL and moves the cursor only on success |
| Codec.TakeAllPairs | src/proto/packet.rs:170-180 | the loop collects all pairs in order or reports the first error |
| Codec.TakeRequest | src/proto/packet.rs:114-139 | the request decoder computes the specified result, errors included |
| Codec.DecodeDatagram | src/proto/packet.rs:39-53 | the decoder computes the specified result for every byte string |
| Negotiation.BuildRequestOptions | src/client.rs:202-219 | the options built by successive inserts are the configured ones in fixed order |
| Negotiation.RequestMeaning | src/client.rs:202-219 | a request carries exactly the configured options in fixed order; a read asks for the size with 0, a write announces its own |
| Negotiation.Negotiate | src/server.rs:251-287 | the option set built by inserts and the mutable parameters end as the granted options and parameters |
| Negotiation.MergeAgrees | src/client.rs:221-233 | what the client reads out of the OACK is what the server uses; no OACK means defaults |
| Negotiation.MergeMeaning | src/client.rs:221-233 | each acknowledged option replaces its parameter and the others stay, for any OACK |
| Negotiation.GrantNearest | src/server.rs:259-285 | whatever was asked, the block size is the nearest allowed one, the timeout at least one second and the window at least one block |
| Negotiation.GrantBounded | src/server.rs:251-287 | block size and window never exceed what was asked or configured, only asked options are granted, and all granted values are acceptable to the peer |
| Negotiation.GrantEchoes | src/server.rs:264-278 | a size is reported exactly when asked for, the file's on reads and the client's on writes; the timeout is confirmed as asked; the OACK is empty exactly when nothing usable was asked |
| Negotiation.WireAgreement | src/server.rs:338-347 | through encoding and decoding in both directions, client and server end with the same parameters, whatever the client asked |
| Negotiation.GrantOutcome | src/client.rs:202-233 | block size, timeout, window and every acknowledged option, size included, in terms of the client's configuration, out-of-range wishes counting as none, in fixed order |
| Endpoints.HeardAsSent | src/server.rs:474-481 | an encoded block or acknowledgement is heard as that block or acknowledgement |
| Endpoints.HeardExactly | src/server.rs:506-519 | for every string of bytes: only an ERROR is heard as an error, only an ACK or DATA as such, and what does not decode or is a request or OACK as none of them |
| Endpoints.StrayIgnored | src/client.rs:368-369 | a datagram an end has no use for changes nothing there, and a receiver does not answer it |
| Endpoints.OackIsStray | src/client.rs:368-368 | an OACK repeated during the transfer is such a datagram at both ends |
| Endpoints.ErrorEnds | src/server.rs:515-517 | every ERROR ends a transfer at either end, without a reply |
| Endpoints.AckConsumes | src/server.rs:508-511 | the queue loop and the step function agree on every acknowledgement |
| Endpoints.ReceiverAlwaysConsistent | src/server.rs:658-711 | over every sequence of events the state after each step is consistent, everything sent is the acknowledgements of these steps and a server's parting ERROR, and each acknowledgement names the last block accepted by then |
| Endpoints.AwaitBounded | src/server.rs:391-411 | the OACK goes out at most retries + 1 times |
| Endpoints.OneWait | src/server.rs:401-407 | one datagram ends the wait if it is ACK(0), fails it if it is an ERROR, and otherwise uses up an attempt |
| Endpoints.AwaitedIff | src/server.rs:391-411 | the wait succeeds if and only if ACK(0), with no ERROR before it, is among its first retries + 1 events, and then leaves exactly what follows |
| Endpoints.OnlyAck0Confirms | src/server.rs:402-402 | the datagram 0 4 0 0 confirms, and no other acknowledgement does |
| Endpoints.AwaitPatience | src/server.rs:391-411 | with no answer the OACK goes out exactly retries + 1 times |
| Endpoints.SenderPatience | src/server.rs:497-505 | without an answer a sender gives up after exactly the retries it has left |
| Endpoints.SenderRepeats | src/client.rs:459-475 | meanwhile it sends its window once and once more for every retry |
| Endpoints.SenderSendsOnly | src/server.rs:498-503 | a sender sends DATA and nothing else, except that a server which gives up ends with ERROR 0 "timed out" |
| Endpoints.ReceiverPatience | src/server.rs:664-673 | without an answer a receiver repeats its last acknowledgement once for every retry it has left and then gives up |
| Endpoints.DataRestoresPatience | src/server.rs:675-676 | any DATA datagram restores all retries |
| Endpoints.WindowAcked | src/server.rs:682-699 | expected full blocks are acknowledged exactly when they complete a window, by the number of the last, and not before |
| Endpoints.UnexpectedRestarts | src/server.rs:700-703 | an unexpected block is answered with the last acknowledgement and restarts the count of the window |
| Endpoints.ReceiverSendsOnly | src/server.rs:664-670 | a receiver sends ACK and nothing else, except that a server which gives up ends with ERROR 0 "timed out" |
| Handshake.SettlesRight | src/client.rs:282-300 | whatever a waiting client hears from a task nobody acknowledged yet, it settles on that task's parameters, and on data only with block 1 |
| Handshake.InvStep | src/server.rs:157-176 | loss, repetition, reordering and additional tasks keep the handshake invariant |
| Handshake.Agreement | src/client.rs:268-330 | in every run a settled client holds the parameters of the task it chose, and a first DATA is block 1 of that task's file |
| Handshake.ConfirmationStarts | src/server.rs:402-402 | ACK(0) ends the wait of a task and starts its transfer from the first block |
| Handshake.HandshakeSucceeds | src/client.rs:268-304 | in every scenario and for every file there is a run in which the client settles on exactly what the server granted and the task starts the transfer with it |
| Environment.Source.Read | src/client.rs:593-604 | a read returns the next bytes of the source, possibly fewer than asked, and nothing only at its end; from memory as many as asked or left |
| Server.RrqSender.FillPending | src/server.rs:425-437 | reading keeps pending plus unread bytes the same, ends with a full block or at end of file, and stays below three blocks |
| Server.RrqSender.ReadOneBlock | src/server.rs:417-453 | returns the next block of the unique division of the encoded file, and nothing after the short one |
| Server.RrqSender.FillWindow | src/server.rs:455-468 | the queue becomes the next window of consecutively numbered blocks, cut at the end of the file |
| Server.RrqSender.SendWindow | src/server.rs:470-484 | one DATA datagram per queued block, in order |
| Server.RrqSender.ConsumeAck | src/server.rs:529-553 | pops what the acknowledgement covers and keeps the queue a window of the file |
| Server.RrqSender.React | src/server.rs:497-521 | timeouts, acknowledgements, errors and strays change the sender as the step function says |
| Server.RrqSender.SendUntilAdvanced | src/server.rs:493-522 | the inner loop runs the step function until the window advances or the transfer fails |
| Server.RrqSender.Run | src/server.rs:486-524 | for every sequence of events the loop ends in the state, and has sent the datagrams, of the step function |
| Server.RrqSender.SendOackAndWaitAck0 | src/server.rs:382-412 | repeats the OACK until ACK(0), an error or the last retry, and leaves the remaining events to the transfer |
| Server.ServeRrq | src/server.rs:316-365 | a read request is served with the granted parameters, after ACK(0) exactly if options were granted |
| Server.WrqReceiver.WriteBlock | src/server.rs:713-725 | appends the decoded block to the file and carries the decoder state |
| Server.WrqReceiver.OnData | src/server.rs:675-703 | accepts, counts, acknowledges and finishes exactly as the step function says, and the 16-bit counter cannot overflow |
| Server.WrqReceiver.Run | src/server.rs:658-711 | for every sequence of events the loop ends in the state, and has sent the acknowledgements, of the step function |
| Server.ServeWrq | src/server.rs:563-620 | a write request is answered with the OACK or ACK(0) and received with the granted parameters |
| Client.Sender.FillPending | src/client.rs:611-623 | the client's reading loop, with the same contract as the server's |
| Client.Sender.NextBlock | src/client.rs:606-634 | returns the next block of the unique division of the encoded source, and nothing after the short one |
| Client.FillQueue | src/client.rs:442-454 | the queue, the numbering, the short-block flag and the byte count all describe the same prefix of the file |
| Client.Exchange | src/client.rs:460-496 | one send and one wait change the sender as the step function says |
| Client.SendUntilAdvanced | src/client.rs:459-497 | the inner loop runs the step function until the window advances or the transfer fails |
| Client.SendFile | src/client.rs:436-499 | the upload loop equals the step function on every sequence of events, and the total counts each wire byte once |
| Client.Receiver.WriteBlock | src/client.rs:672-689 | appends the decoded block to the sink and counts what it wrote |
| Client.Receiver.Finish | src/client.rs:691-703 | flushes the decoder's tail to the sink and counts it |
| Client.OnData | src/client.rs:345-366 | the main loop's handling of DATA is the step function |
| Client.TakeFirst | src/client.rs:311-330 | the separate code for a first DATA refuses all but block 1 and otherwise reaches the state of one turn of the main loop |
| Client.ReceiveFile | src/client.rs:306-374 | the download loop equals the step function on every sequence of events, and the reported size is the size of the sink |
| Client.HearAnswer | src/client.rs:281-300 | what an answer makes of the handshake, for downloads and uploads |
| Client.AskToRead | src/client.rs:268-304 | repeats the request, settles on the first usable answer and confirms an OACK, and nothing else, with ACK(0) |
| Client.AskToWrite | src/client.rs:401-432 | repeats the request and settles on an OACK or on ACK(0) |
| Client.AskBounded | src/client.rs:269-270 | the request goes out at most retries + 1 times |
| Client.OneAnswer | src/client.rs:281-300 | one answer settles, ends or prolongs phase one: a download settles on DATA, an upload on ACK(0), either on an OACK if it asked for options; what does not decode and an ERROR end it; anything else uses up an attempt |
| Client.AnsweredIff | src/client.rs:268-304 | phase one ends with a peer if and only if one of the first retries + 1 answers is conclusive and none before it fatal, and then that answer settles it |
| Client.OackSettles | src/client.rs:284-289 | for every request and grant, hearing the encoded OACK settles exactly the parameters the server uses |
| Client.AskPatience | src/client.rs:269-280 | with no answer the request goes out exactly retries + 1 times |
| Client.SettledUsable | src/client.rs:221-233 | no answer can make the client adopt a block size below 8 or an empty window |
| Client.DoGet | src/client.rs:243-375 | a download sends its request and at most one ACK(0) in phase one, runs its data phase with the parameters and first block phase one ended with, sends exactly the acknowledgements of that run, reports the size of its sink, and refuses exactly a first DATA other than block 1, without sending anything to it |
| Client.DoPut | src/client.rs:377-499 | an upload repeats its request in phase one, then cuts and sends its source with the parameters phase one ended with |
| EndToEnd.WrittenPrefix | src/client.rs:672-689 | any number of accepted blocks decodes to a prefix of the file |
| EndToEnd.DeliveryInOrder | src/client.rs:455-487 | over order-preserving channels the sink is always a prefix of the file, a finished receiver has the file, and a successful sender has a finished receiver |
| EndToEnd.DeliveryReordered | src/server.rs:486-524 | the same with age-bounded reordering |
| Programs.SenderProjects | src/server.rs:486-524 | the sending end of a network run is the sending program run on its socket's events, and what the program sends is its first window, then exactly what the run appends to the DATA channel, then a server's parting ERROR |
| Programs.ReceiverProjects | src/server.rs:658-711 | the receiving end of a network run is the receiving program run on its socket's events, and what the program sends is exactly what the run appends to the ACK channel, then a server's parting ERROR |
| Programs.ClientProjects | src/client.rs:268-304 | the client of a handshake run is phase one of the download program on the answers it heard, and the network holds its request and its ACK(0) |
| Programs.TaskProjects | src/server.rs:316-365 | every task of a handshake run that a request started is the serving program on what the task heard: same outcome, and the network holds from it exactly the datagrams the program sends |
| Programs.GetNeverRefused | src/client.rs:311-330 | in every handshake run the download program does not reach its error exit for a first DATA other than block 1 (line 328) |
| EndToEnd.ProgramsDeliver | src/client.rs:332-372 | with the two programs at the ends of the channels: the channels were given exactly what the programs sent, and if the sending program has returned success, the receiving program has returned and its sink is the file |
| EndToEnd.ServedReadDelivers | src/server.rs:316-365 | negotiation, the wait for ACK(0) and the transfer together: if the task for a read request reports success, the client has finished and holds the file |
| EndToEnd.ServedWriteDelivers | src/server.rs:563-620 | with agreed parameters, if an upload reports success, the server's task has finished and its file holds the source |
| EndToEnd.UploadDelivers | src/client.rs:377-499 | an upload from its request on: if the client heard no ACK(0), or the grant is the defaults, and it then reports success, the task that serves its request has finished and its file holds the source |
| EndToEnd.UploadTotal | src/client.rs:442-457 | the size a successful upload reports is the size of the encoded source, whatever was retransmitted |
| EndToEnd.FirstDataIsDelivery | src/client.rs:311-330 | a client that settled on block 1 stands where the network's first delivery puts a receiver and has sent what that delivery sends: ACK(1) if the block is short or the window is 1, else nothing |
| EndToEnd.DownloadDelivers | src/client.rs:243-375 | after any handshake that settles, the data phase opens with the state and the acknowledgements of the network's first delivery if block 1 came with the handshake, and every run of it with the chosen task delivers that task's file |
| EndToEnd.DownloadDeliversReordered | src/client.rs:243-375 | the same when ACK(0) and the first window stay in the network and are delivered late, repeatedly and out of order, within the age bounds |
| EndToEnd.DownloadSucceeds | src/client.rs:243-375 | in every scenario and for every file there is a handshake and a loss-free transfer after which both programs have returned success, with what the server granted, and the client's sink is the file |
| EndToEnd.UploadSucceeds | src/client.rs:377-499 | for every request and file the server's first reply settles the client on what was granted, and there is a loss-free transfer after which both programs have returned success and the server's file is the source |
| Limits.ReceiverDoneSenderTimedOut | src/server.rs:683-693 | a run in which the receiver finishes and the sender times out |
| Limits.SucceedsIffFinalAck | src/server.rs:508-514 | a run ends in success for the sender if and only if, while it was running, it heard an acknowledgement of the whole file |
| Limits.LateAckLosesData | src/server.rs:557-560 | for every file of 24 bytes, with parameters a server grants: a run in which a late ACK(0) makes the sender report success when 16 bytes have arrived |
| Limits.WriteAgreesIff | src/client.rs:416-424 | an uploading client agrees with the server if and only if it heard the OACK or the server uses the defaults |
| Limits.WriteRepliesExact | src/server.rs:614-673 | before data arrives the server's task sends its OACK if it has one, ACK(0), its parting ERROR and nothing else, and both replies do occur |
| Limits.WriteDisagrees | src/server.rs:664-673 | a lost OACK can make the server take the client's first full block for the last one |

## Left out

- Liveness.SenderStops: covers timeouts and advancing acknowledgements only, because stale and
  unrelated datagrams resend the window without using up a retry, so no bound holds for them.
- Unordered.Safety: assumes the stated age bounds, because without them the claim is false
  (`Limits.LateAckLosesData`).
- Negotiation.Negotiate: leaves out a request for a block size under a configured maximum below 8;
  the code panics in `clamp` then, and `Handshake` starts no task for it.
- EndToEnd.UploadDelivers: leaves out uploads that take ACK(0) for the answer of a server that
  granted other parameters, because these can fail (`Limits.WriteDisagrees`).
- Sockets, asynchronous tasks and real time: a deadline that passes is an event; failures of send
  and receive calls end the real programs and are not events here.
- Datagrams from other transfer identifiers: they are answered and dropped inside `recv_one` and
  change nothing.
- File-system calls: a file is its content; a request whose file cannot be opened is a task that
  answers with ERROR.
- Path resolution (`src/path_safe.rs`), command-line programs, builders and logging.
- Error values: the kinds of outcome are kept, the texts carried by peer errors and timeouts are not.
- The 64-bit width of the reported byte counts: they are unbounded here.

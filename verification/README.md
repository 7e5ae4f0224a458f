# Multipath transport: a verified model

rabbit-mtcp-ws-socks5 carries one logical connection over many websocket tunnels. The sender cuts the bytes into
numbered blocks, any number of encrypted tunnels race to send them, failed sends are retried, and the far end puts the
blocks back in order and hands out a byte stream. The design rests on one claim: whatever the tunnels do (interleave,
repeat, lose, die, get replaced), the reader sees a prefix of what was written. No single function shows it. This
project models each component on the way, proves what it promises, and composes them into that theorem
(`EndToEnd.PrefixDelivery`).

| file | models | main results |
|---|---|---|
| `Bytes.dfy` | bytes, fixed-width integers, little-endian fields | round trips of the encoding |
| `Block.dfy` | `block/block.go` wire format | parse and pack are inverse; a cut stream parses to a prefix |
| `Reorder.dfy` | `connection/block_processor.go` | the output in every run, with differing copies and wrapping IDs; when the timeout kills |
| `Inbound.dfy` | `connection/ring_buffer.go`, `connection/inbound_connection.go` | `Read` is a byte FIFO for all buffer sizes and returns what there is; end of stream is complete |
| `Outbound.dfy` | `connection/outbound_connection.go`, towards the socket | exactly when the socket is writable and what it has accepted; one disconnect is sent |
| `Sending.dfy` | `connection/connection.go`, block constructors, `RecvRelay` | numbering without gaps; blocks are isolated from the reused buffer |
| `Records.dfy` | `tunnel/tunnel.go` as functions | nonce counter; the record format and its decoder |
| `Streams.dfy`, `StreamReading.dfy` | `tunnel/tunnel.go` on the heap | in-place sealing and opening refine the record format |
| `Framing.dfy` | one tunnel, from blocks to blocks | output is a prefix of input through every layer |
| `Scheduler.dfy` | `tunnel_pool/tunnel.go`, queues, retries and encrypted tunnels | conservation, written at most once, only submitted blocks arrive |
| `Fates.dfy` | the same, over all continuations of a run | exactly when a block can still be lost, and exactly how often it can arrive |
| `EndToEnd.dfy` | all of it, one direction | prefix delivery, end of stream, nothing withheld |
| `Dispatching.dfy` | `connection_pool/pool.go`, dispatching, over every run | each receiver has exactly the blocks that were its to get |
| `Progress.dfy` | the same transport, over continuations of a run | from every reachable state a new connection can carry everything written to it |
| `Restarts.dfy` | a connection ID with two sending objects | a run in which neither object's bytes come out as a prefix |
| `ClientPool.dfy`, `ServerPool.dfy` | `tunnel_pool/manager.go`, `tunnel_pool/pool.go` | replenishment, endpoint rotation, empty-pool countdown |
| `ConnectionPool.dfy` | `connection_pool/pool.go` | the connection counter is exact if and only if no live ID is drawn again |
| `Socks5.dfy` | `client/client.go` | the three parser phases accept exactly the protocol, and answer every error as they should |

Components that the program updates in place are classes whose methods are proved against functions; what happens
between goroutines (tunnels, pools, the whole transport) is a step system: a total function `Apply` from state and
action to state, and theorems about `Run` on every list of actions. An action that is not possible in a state leaves
it unchanged, so the theorems cover every interleaving. The step system of the transport is tied to the classes: a
`Read` step is `Inbound.Serve`, which `InboundConnection.Read` is proved to perform; a `SendOut` step is
`Outbound.Deliver`, which `OutboundConnection.OnBlock` performs; an `Order` step is `Reorder.Receive`, which
`BlockProcessor.OnBlock` performs. The tunnels of the step system carry ciphertext: a write adds the sealed records of a
block (and the salt before the first), a failed one a part of them, and the far end decrypts whatever bytes it has
received and parses on from its position, so `PrefixDelivery` reaches down to the bytes on the websockets; that the
encrypting writer puts exactly these bytes there is `Framing.SendBlock`.

Safety alone would be met by a transport that carries nothing. Two kinds of theorem rule that out: what a component does
with everything it is given (`Inbound.InboundConnection.ReadAll`, `Outbound.SocketExact`, `Dispatching.DispatchExact`,
`ServerPool.FireExact`), and what can still happen from any state that a run can reach (`Progress.NewReaderWorks`,
`NewSocketWorks`, `Fates.ArrivalsExact`, `ClientPool.CanRefill`).

Where the program does not do what one would like it to, the exact condition is proved.

- Block IDs are 32 bits wide, and a connection ID can get a second sending object. What comes out is nevertheless exact in
  every run: a prefix of an object's blocks if and only if at every moment the copies that counted were that object's,
  from the lap of the IDs the relay was in (`EndToEnd.PrefixDelivery`); for up to 2^32 blocks, if and only if block 0 was
  not replayed after all IDs and every copy that counted and was passed by is the object's (`PrefixOfObject`). Two objects
  can break that (`Restarts.RestartMixes`), and so can a late copy of block 0 (`Reorder.WrapReplays`).
- The timeout arm kills exactly on a hole, if and only if an ID is missing and the last ID is not the only block held
  back, or no ID is missing and all but the last have come once more; so a connection that has received every ID is killed
  without a hole (`Reorder.HoleDetection`, `KillsWhenWrapped`).
- A block can still be lost for good if and only if it has not arrived, even if it was written successfully: the sender
  keeps nothing, and the far end may stop reading a tunnel at any time (`Fates.LossExact`, `WrittenCanBeLost`). It is lost
  if and only if it has not arrived, is not on its way and waits on no tunnel that is still read (`Fates.GoneExact`); it
  can still arrive n times if and only if it is on its way, or its arrivals and its copies that wait on tunnels still read
  are at least n (`Fates.ArrivalsExact`). So prefix delivery, not delivery, is the theorem.
- A peer is always removed after a period in which its pool was empty; that period reaches up to the removal if and only
  if the countdown of the present empty period has run out, which can fail when a countdown expires at the moment
  it is cancelled (`ServerPool.RemovalEndsEmptyPeriod`, `TieRemovesLivePeer`).
- The timer of an empty pool removes the peer if and only if the pool had a tunnel and has been empty for
  EmptyPoolDestroySec up to now (`ServerPool.FireExact`).
- A quiet client pool is full if and only if the last notification drew no tunnel ID in use; the connection counter is
  right throughout a run if and only if no connection ID in use was drawn.

The comment on `payloadSizeMask` (tunnel/tunnel.go:16) says 16*1024 - 1; the constant is 0x7FFF, and the model uses the
constant. The shutdown constants continue the iota of the block types (block/block.go:18-20), so they are 5, 6 and 7.

## Model

| member | source | states |
|---|---|---|
| `EndToEnd.PrefixDelivery` | connection/block_processor.go:36-83 | in every run, with any number of encrypted tunnels, blocks and sending objects for an ID and any loss, repetition and reordering, and for every sending object that has or had the ID: the blocks come out of the receiving connection as a prefix of those the object numbered if and only if at every moment the copies that counted (the last of each ID to come before it was passed by) were the object's, from the lap of 2^32 IDs the relay was in; and then the bytes that left the connection (returned by Reads, or accepted by the socket) are a prefix of the bytes written to the object |
| `EndToEnd.PrefixOfObject` | connection/block_processor.go:36-83 | for an object that numbered at most 2^32 blocks the condition is: no copy of block 0 arrived after all 2^32 IDs, and every copy that counts and was passed by is the object's |
| `EndToEnd.SoleObject` | connection/block_processor.go:36-83 | for an object that is the only one its ID had and numbered at most 2^32 blocks: exactly unless a copy of block 0 arrived after all 2^32 IDs, so always with fewer blocks; with no object at all nothing comes out |
| `EndToEnd.EndOfStream` | connection/inbound_connection.go:77-117 | in every run in which an object's copies are the ones that count, a reader that consumed a stream-ending shutdown and holds no bytes has returned every byte the object numbered before that shutdown |
| `EndToEnd.NothingWithheld` | connection/inbound_connection.go:65-181 | in such a run, once every block of the object (at most 2^32) arrived and was consumed, what a reader returned plus what it has staged is everything written to the object, and a socket that is still writable has accepted everything written |
| `EndToEnd.OrderedPrefix` | connection/block_processor.go:41-69 | whatever subset of a list of at most 2^32 numbered blocks arrives, in any order and multiplicity, what comes out is a prefix of the list if and only if no copy of block 0 arrives after all 2^32; with fewer blocks, always |
| `EndToEnd.OrderedWhole` | connection/block_processor.go:41-69 | and a prefix that comes out is the whole list once all of the list has arrived, whatever else arrived |
| `EndToEnd.RunInv` | connection_pool/pool.go:98-141 | in every reachable state: IDs are consecutive, payloads plus the rest of the current write are the bytes written, every block in flight or received was issued by the sender it names or by one that had its ID before, every relay state is determined by what arrived, and the pool's map leads to objects that carry the ID they are filed under |
| `Dispatching.DispatchExact` | connection_pool/pool.go:98-125 | in every run: for each receiving connection, what it has ordered and what waits in its inbox are together exactly the delivered blocks dispatched to it, in the order of their delivery; every dispatched block has at most one recipient |
| `Dispatching.RouteWhy` | connection_pool/pool.go:98-125 | in every run: each dispatched block was looked up at one dispatch step, in the map of that moment; it went to the receiver filed under its ID, to a new one if none was and the side accepts, and to nobody only if neither |
| `Dispatching.AllSinceFiled` | connection_pool/pool.go:98-125 | in every run: a receiver that has been filed under its ID since some step got exactly the blocks of that ID dispatched since then |
| `Dispatching.FiledUnlessGone` | connection_pool/pool.go:71-95 | in every run without an ID drawn that is in use, a receiver that was not removed has been filed ever since it was made |
| `Dispatching.DeliveredComesOut` | connection_pool/pool.go:98-125 | so for a receiver filed since a step: if every block of an object (at most 2^32) is among those the tunnels delivered and the pool dispatched since, the copies that count are the object's and the receiver has consumed what it put in order, then everything written to the object has come out, or was accepted by a socket that is still writable |
| `Progress.NewReaderWorks` | connection/inbound_connection.go:65-181 | from every reachable state, for every connection ID without a sending object and every list of writes and control blocks (fewer than 2^32 blocks): the run can go on so that a new reader has returned exactly the bytes written and consumed exactly the control blocks, in order |
| `Progress.NewSocketWorks` | connection_pool/pool.go:98-125 | the same for a connection that the accepting side makes when its first block arrives: the socket has accepted exactly the bytes written, is still writable, and the control blocks were consumed in order |
| `Progress.SendOps` | connection/connection.go:113-134 | from every state in which an object can send, any list of writes and control blocks can be cut, numbered, written to tunnels and delivered; the number of blocks is ceil(len / DataSize) for each write and one for each control block |
| `Progress.DispatchAll` | connection_pool/pool.go:98-125 | all that was delivered can be dispatched, and a filed receiver then has exactly the blocks of its ID after those it had |
| `Progress.OrderAll` | connection/block_processor.go:36-69 | a receiver can always order everything it was given |
| `Progress.SendOutAll` | connection/outbound_connection.go:107-151 | a writable socket can be given everything put in order, and has then accepted all of its payloads |
| `Progress.ReadsOnTo` | connection/inbound_connection.go:65-138 | from every reachable state a reader can go on to have consumed any further number of the ordered blocks and returned any further number of their bytes, the rest of them staged |
| `EndToEnd.PoolRun` | connection_pool/pool.go:48-125 | the connection map and counter of every end-to-end run are those of a run of the connection pool model |
| `EndToEnd.Accounted` | connection_pool/pool.go:48-125 | so in every end-to-end run without an ID drawn that is in use, the connection counter is the size of the map that dispatches blocks, and the map leads to every receiver not yet removed |
| `Restarts.RestartMixes` | connection/outbound_connection.go:153-187 | a second sending object can break the condition: for every ID and cipher a run exists in which a reader returns a prefix of neither object's bytes |
| `Restarts.DeliverNext` | tunnel_pool/tunnel.go:161-246 | a block that is alone on its way can always be delivered next |
| `Reorder.BlockProcessor.OnBlock` | connection/block_processor.go:40-69 | the loop over cache and counters computes the recursive specification of receiving one block |
| `Reorder.BlockProcessor.OnTimeout` | connection/block_processor.go:70-77 | in terms of everything that arrived: while an ID is missing it kills exactly when a block is held behind a missing one and that is not the last ID alone; when none is missing, exactly unless all but the last have come once more; a killed connection is removed |
| `Reorder.RunRefines` | connection/block_processor.go:41-69 | after every arrival sequence that leaves an ID unseen, also one whose copies differ: output is the counting copies of 0..m-1 with m the least ID not received, the cache is exactly those above m, last is one past the greatest ID |
| `Reorder.OutputExact` | connection/block_processor.go:41-69 | in every run: the output is the longest gap-free run of what counts as received, up to all 2^32 blocks, if and only if no copy of block 0 arrived after all IDs |
| `Reorder.OneListExact` | connection/block_processor.go:41-69 | in every run and for every list of up to 2^32 blocks numbered from zero: the output is a prefix of the list if and only if block 0 was not replayed and every counting copy that was passed by is from the list |
| `Reorder.RunLaps` | connection/block_processor.go:36-69 | in every run whatsoever: the relay starts over whenever all IDs are complete; its counter and cache are those of what came since, and its output is that of the complete laps followed by that of the present one |
| `Reorder.LapsExact` | connection/block_processor.go:36-69 | in every run and for every list numbered from zero with wrapping IDs, however long: the output is a prefix of the list if and only if at every moment every counting copy that was passed by was from the list's blocks for the present lap |
| `Reorder.SameState` | connection/block_processor.go:41-69 | while an ID is missing, two arrival sequences lead to the same state if and only if the same copies count |
| `Reorder.OutputConfluent` | connection/block_processor.go:41-69 | until block 0 is replayed after all IDs, with copies that agree, the output depends only on the set received, also when that is all IDs |
| `Reorder.RunStages` | connection/block_processor.go:41-69 | every run is in one of three stages: an ID is missing and the relay is its specification; all have come, the output is whole and the counter is back at zero; or block 0 was replayed and the output is too long |
| `Reorder.Confluent` | connection/block_processor.go:41-69 | while an ID is missing, two arrival sequences with the same set of agreeing copies end in the same state |
| `Reorder.HoleDetection` | connection/block_processor.go:41-77 | in every run: killing on timeout coincides with a block held behind a missing one if and only if an ID is missing and the last ID is not the only block held back, or none is missing and all but the last have come once more |
| `Reorder.HoleDetectionByCache` | connection/block_processor.go:41-77 | in every run: next never exceeds last; the cache is non-empty exactly when, among what came since all IDs were last complete, a block is held behind a missing one; and killing coincides with that if and only if, with an ID missing, the last ID is not the only one held back, and, with none missing, one is held back or all but the last have come again |
| `Reorder.KillsWhenWrapped` | connection/block_processor.go:41-77 | with all IDs received and block 0 not once more, the relay always kills, and its cache is non-empty exactly when anything arrived since |
| `Reorder.WrapReplays` | connection/block_processor.go:41-49 | the bound is tight: after all 2^32 IDs the output is whole and the connection looks as if blocks were missing, and a late copy of block 0 is put out a second time |
| `Inbound.ByteRingBuffer.OverWrite` | connection/ring_buffer.go:16-23 | the contents become exactly the data, for any size |
| `Inbound.ByteRingBuffer.Read` | connection/ring_buffer.go:25-33 | moves the longest prefix of the contents that fits, keeps the rest, touches nothing else |
| `Inbound.InboundConnection.Select` | connection/inbound_connection.go:80-93 | an arm takes the first queued block or leaves the stream as it was; default only on an empty queue |
| `Inbound.InboundConnection.CopyBlock` | connection/inbound_connection.go:158-173 | a block's bytes go to the caller and the staging buffer without loss; needs the staging buffer to be empty, which all callers establish |
| `Inbound.InboundConnection.ReadBlock` | connection/inbound_connection.go:140-181 | consumes one block, keeps returned plus staged equal to the payloads consumed, flags equal to the shutdowns consumed; EOF exactly on a shutdown that ends the stream |
| `Inbound.InboundConnection.Read` | connection/inbound_connection.go:65-138 | for every buffer size: takes some blocks and returns the first n bytes then available; staged bytes are served first; bytes beyond n are untouched. It returns less than the buffer holds only with nothing staged, and, unless the deadline passed, only with the queue empty or after a block that ends the stream; nothing at all, for a buffer with room, only if it is EOF or the blocks taken carry no bytes. EOF whenever the connection is closed for reading and nothing is left, and whenever the first block taken ends the stream and nothing was staged; without expiry, EOF only when a stream-ending shutdown was consumed, nothing is staged and every consumed payload was returned |
| `Inbound.InboundConnection.ReadAll` | connection/inbound_connection.go:65-138 | reading with a buffer of any positive size until EOF returns, unless a deadline expires, every payload up to the block that ends the stream, and all that will ever come if none does; so the whole stream if no block before its last ends it |
| `Inbound.InboundConnection.ReadMany` | connection/inbound_connection.go:65-138 | the results of any sequence of Reads concatenate to a prefix of the payloads in queue order |
| `Inbound.ServeFaithful` | connection/inbound_connection.go:65-138 | serving keeps returned plus staged equal to the payloads consumed |
| `Inbound.FaithfulServes` | connection/inbound_connection.go:65-138 | conversely any two faithful readings related by blocks taken and bytes returned are related by serving |
| `Inbound.ShutsIff` | connection/inbound_connection.go:144-157 | the flags' specification holds if and only if such a shutdown block is among those consumed |
| `Outbound.DeliverPrefix` | connection/outbound_connection.go:110-145 | one block keeps the accepted bytes a prefix of the payloads consumed, all of them while the socket is writable, whatever part of a write succeeds |
| `Outbound.SocketExact` | connection/outbound_connection.go:107-151 | for every history of writes, failures, shutdowns and closings from an open socket: it is writable if and only if no data write failed or was short, nothing but read shutdowns was consumed and nobody closed it; while it is writable it has accepted every payload consumed; afterwards exactly the payloads before the first event that ended it and the part which that write took |
| `Outbound.OutboundConnection.OnBlock` | connection/outbound_connection.go:110-145 | the receive arm performs that step, for every block type and shutdown, and adds it to the history; a write fails exactly if the socket takes no more or has no room for the whole |
| `Outbound.OutboundConnection.SendRelay` | connection/outbound_connection.go:107-151 | however writes fail and whenever the other relay closes: every block of the stream is taken unless the connection was removed from its pool or an event in its history cancelled it; it is closed from outside only if the other relay ended; a socket still open after all blocks has accepted all payloads; and the relay ends having sent exactly one disconnect |
| `Outbound.OutboundConnection.CloseThenCancelWithOnceSend` | connection/outbound_connection.go:40-46 | leaves the connection closed with exactly one disconnect sent, however often it is called |
| `Outbound.OutboundConnection.Connect` | connection/outbound_connection.go:169-187 | a new connection becomes open or, if the dial fails, tells the far end once and stays closed; a dialled one is left alone |
| `Outbound.OutboundConnection.Live` | connection/outbound_connection.go:107-187 | over a whole life, reachable or not, exactly one disconnect is sent and the socket accepts a prefix of the payloads; all of them if the connection was not removed from its pool and nothing ended the writing |
| `Sending.BlockValue.Pack` | block/block.go:37-49 | returns the wire form and remembers it; a second call returns the same array |
| `Sending.PiecesPayload` | block/block.go:99-110 | the consecutive pieces of a byte string concatenate back to it |
| `Sending.PiecesCount` | block/block.go:99-110 | covering n bytes takes exactly ceil(n / DataSize) pieces |
| `Sending.BaseConnection.SendPieces` | block/block.go:99-110 | the loop issues the consecutive full pieces of the data, the last one perhaps shorter |
| `Sending.BaseConnection.SendData` | connection/connection.go:128-134 | IDs stay 0..k-1 without gap or repeat (modulo 2^32), blocks have 1..DataSize bytes, ceil(len / DataSize) of them are added, payloads grow by exactly the data |
| `Sending.BaseConnection.SendConnect` | connection/connection.go:113-117 | one more consecutive ID, carrying the address; payloads unchanged |
| `Sending.BaseConnection.SendDisconnect` | connection/connection.go:119-126 | one more consecutive ID, carrying the shutdown type; payloads unchanged; a full shutdown also stops the connection |
| `Sending.BaseConnection.RecvRelay` | connection/outbound_connection.go:54-104 | with one buffer of any configured size overwritten by every socket read, the queued blocks carry exactly what was read, in order. It is cancelled if and only if the context is done after some read before the stream ends, and then reads on up to the first read that brings nothing or until time is up; otherwise it reads to the end of the stream, and there, unless the far end was told already, issues exactly one more block, a disconnect of both directions, and stops the connection |
| `Sending.BaseConnection.Retransmit` | tunnel_pool/tunnel.go:211-213 | packing a queued block again after the caller's buffer was overwritten gives the same bytes, those fixed when it was issued |
| `Blocks.ParsePack` | block/block.go:37-71 | parsing a packed block, whatever follows it, yields that block and its length |
| `Blocks.HeaderDigits` | block/block.go:37-49 | every header byte, digit by digit: type, then connection ID, time stamp modulo 2^64, block ID and length as little-endian base-256 digits, then the data |
| `Blocks.ParseTorn` | block/block.go:51-71 | no proper prefix of a packed block parses |
| `Blocks.ParseSound` | block/block.go:51-71 | whatever parses is the packed form of the block it yields |
| `Blocks.ParseAllCut` | block/block.go:51-71 | a stream of packed blocks cut anywhere parses to a prefix of them, and to all of them when whole |
| `Records.Increment` | tunnel/tunnel.go:189-196 | the carry loop computes the recursive increment, for any length |
| `Records.IncrementedValue` | tunnel/tunnel.go:189-196 | which is +1 modulo 256^n on the little-endian value |
| `Records.NonceValue` | tunnel/tunnel.go:57-61 | after k increments of zero the nonce is k modulo 256^size |
| `Records.NoncesDistinct` | tunnel/tunnel.go:57-61 | two nonces agree if and only if their counts agree modulo 256^size; so the first 256^size are distinct, and the next one repeats |
| `Records.LawfulCipherExists` | tunnel/tunnel.go:18-23 | the laws asked of a cipher can be met |
| `Records.OpenSealed` | tunnel/tunnel.go:102-132 | opening a sealed record under the same count, whatever follows, yields its payload and length |
| `Records.OpenTorn` | tunnel/tunnel.go:102-132 | no proper prefix of a record opens |
| `Records.WireAppend` | tunnel/tunnel.go:46-79 | the wire of a concatenation continues with the nonce count two per record further |
| `Records.ChunksExact` | tunnel/tunnel.go:46-68 | a write of p is cut into exactly ceil(len / 32767) records, and record i is p[32767 i .. min(32767 (i + 1), len)] |
| `Records.DecodeCut` | tunnel/tunnel.go:102-149 | a record stream cut anywhere decodes to a prefix of the plaintext, and to all of it if and only if it is whole |
| `Records.StreamCut` | tunnel/tunnel.go:205-253 | the same with the salt in front, under the key derived from it |
| `Records.DecodeMore` | tunnel/tunnel.go:102-149 | on any bytes, waiting for more never changes what was decoded already |
| `Streams.StreamWriter.SealAt` | tunnel/tunnel.go:57-61 | seals a part of the shared buffer in place, changing nothing else, and steps the nonce |
| `Streams.StreamWriter.SealRecord` | tunnel/tunnel.go:54-61 | the two overlapping seals in one buffer produce the record of the payload that lay there |
| `Streams.StreamWriter.WriteRecord` | tunnel/tunnel.go:46-68 | keeps what was sent a prefix of the stream of the records so far, and equal to it while no write failed; the nonce is at twice the number of records |
| `Streams.StreamWriter.InitWriter` | tunnel/tunnel.go:238-253 | the salt is the first thing on the wire; the writer exists exactly if it went out |
| `Streams.StreamWriter.ReadFrom` | tunnel/tunnel.go:46-79 | whatever sizes the source supplies, one record is sealed per non-empty read, with exactly the bytes of that read, up to the first that the websocket does not take; it succeeds if and only if all of them fit what the websocket takes |
| `Streams.StreamWriter.Write` | tunnel/tunnel.go:255-271 | with the lazily made writer: the records grow by `Chunks` of the bytes, all of them on success; it succeeds if and only if salt and records fit what the websocket takes |
| `Streams.StreamWriter.WriteMany` | tunnel/tunnel.go:255-271 | after any sequence of writes that succeed the records are exactly the chunks of each write in turn; all succeed if and only if they fit what the websocket takes; the plaintext on the wire is always a prefix of what was written |
| `StreamReading.WebsocketConnAdapter.Read` | tunnel/tunnel.go:301-317 | messages come out as one byte stream, for any message and buffer sizes, including empty reads at message ends |
| `StreamReading.WebsocketConnAdapter.ReadFull` | tunnel/tunnel.go:301-317 | succeeds if and only if enough bytes will arrive, and yields exactly the next ones |
| `StreamReading.StreamReader.OpenNext` | tunnel/tunnel.go:104-114 | opens the next text in place under the current nonce and steps it; fails only if the stream is short or the text does not open |
| `StreamReading.StreamReader.ReadRecord` | tunnel/tunnel.go:102-132 | on arbitrary bytes: the record in the buffer followed by what is left is what was left before; fails only when nothing more can be decoded |
| `StreamReading.StreamReader.InitReader` | tunnel/tunnel.go:205-218 | reads the salt and loses nothing; fails only when nothing can be decoded |
| `StreamReading.StreamReader.Read` | tunnel/tunnel.go:135-149 | for any buffer size, with leftovers aliasing the record buffer: bytes come out in order, none skipped or repeated; fails only when nothing is left |
| `StreamReading.StreamReader.ReadFull` | tunnel/tunnel.go:220-227 | succeeds if and only if enough plaintext will arrive, and yields exactly the next bytes |
| `StreamReading.StreamReader.ReadMany` | tunnel/tunnel.go:220-227 | any sequence of reads of any sizes, up to the first that fails, returns a prefix of what will ever be available, and all of it if one failed |
| `StreamReading.DecodeParts` | tunnel/tunnel.go:102-132 | opening size and payload separately agrees with the decoder on any stream, not only on streams a writer made |
| `Framing.NewBlockFromReader` | block/block.go:51-71 | reading through the decrypting reader agrees with the parser on the decrypted bytes, including both ways to fail |
| `Framing.InboundRelay` | tunnel_pool/tunnel.go:283-324 | puts out exactly the parsed blocks other than pings and pongs |
| `Framing.FramingStack` | block/block.go:37-71 | from any prefix of a tunnel's ciphertext, decoding and parsing yield a prefix of the blocks packed into it, and all of them from the whole |
| `Framing.Tunnel` | tunnel_pool/tunnel.go:211-246 | for every list of blocks, every point at which the websocket fails and every way to cut and lose the messages from some point on, what comes out of the tunnel is a prefix of what went in, and all of it if nothing was lost |
| `Framing.SendBlock` | tunnel_pool/tunnel.go:211-246 | packing a block and writing it on the encrypting writer is the write step of the step system: the bytes on the websocket are exactly the tunnel's ciphertext with the sealed block added, or a part of it when the websocket fails, and it succeeds if and only if they fit |
| `Framing.Connection` | tunnel/tunnel.go:220-271 | for every sequence of writes, every failing write, every way to cut and lose the messages from some point on and every sequence of read sizes, the bytes read are a prefix of the bytes written, and all of them if nothing was lost and the reads went on to the end |
| `Framing.PacksFlatten` | tunnel_pool/tunnel.go:211-216 | one write per packed block carries the packed list |
| `Scheduler.PutAligned` | tunnel_pool/tunnel.go:211-246 | a write, complete or torn at any byte of its ciphertext, keeps the tunnel decodable to packed blocks plus at most a part of one block that does not parse and after which nothing is written |
| `Scheduler.SealedExtends` | tunnel/tunnel.go:46-79 | the records of one more block extend the tunnel's ciphertext to that of all its blocks, the salt going out with the first |
| `Scheduler.NextBlock` | tunnel_pool/tunnel.go:283-290 | however much of the ciphertext it has received, the far end finds nothing yet or exactly the next block sent, and finds it when it has received all |
| `Scheduler.ApplyConserves` | tunnel_pool/tunnel.go:161-246 | no step makes or loses a block |
| `Scheduler.Conservation` | tunnel_pool/tunnel.go:161-246 | in every run each block is in as many places (queues, hands, retry goroutines, written, discarded) as it was submitted |
| `Scheduler.FirstSendsInOrder` | tunnel_pool/tunnel.go:161-209 | in every run the tunnels take first sends in the order of submission: the submissions fall into those taken, those in the tunnel pool's queue and those in the connection pool's |
| `Scheduler.WrittenAtMostOnce` | tunnel_pool/tunnel.go:230-240 | so a block submitted once is successfully written at most once, and not also discarded |
| `Scheduler.RunInv` | tunnel_pool/tunnel.go:161-362 | in every reachable state all tunnels are aligned and carry only submitted blocks and keep-alives |
| `Scheduler.OnlySubmittedArrives` | tunnel_pool/tunnel.go:283-324 | whatever the tunnels do, a block that arrives was submitted, unchanged |
| `Fates.CopiesExact` | tunnel_pool/tunnel.go:211-246 | in every run the complete copies of a block on all wires are its successful writes plus the failed writes all of whose bytes got through |
| `Fates.DeliveredAtMost` | tunnel_pool/tunnel.go:283-324 | in every run no block arrives more often than that |
| `Fates.DeliveredUpTo` | tunnel_pool/tunnel.go:283-324 | from every run the far ends can read on until every complete copy that waits on a tunnel still read has arrived |
| `Fates.InSightStep` | tunnel_pool/tunnel.go:211-327 | what has arrived or waits on a tunnel still read grows by exactly the complete copies that get on the wire of such a tunnel, and shrinks only when a far end stops reading |
| `Fates.ArrivalsExact` | tunnel_pool/tunnel.go:211-327 | in every run and for every n: some continuation makes the block arrive at least n times in all if and only if a submission of it is still on its way, or its arrivals and its complete copies that wait on tunnels still read are at least n |
| `Fates.GoneExact` | tunnel_pool/tunnel.go:211-327 | in every run: a block has not arrived and never will, however the run goes on without another submission, if and only if it has not arrived, all its submissions were written or discarded, and no complete copy of it waits on a tunnel that is still read |
| `Fates.LossExact` | tunnel_pool/tunnel.go:211-327 | in every run: some continuation loses the block for good if and only if it has not arrived |
| `Fates.DiscardExact` | tunnel_pool/tunnel.go:233-239 | in every run: some continuation discards every submission of the block if and only if no write of it has succeeded |
| `Fates.TwiceExact` | tunnel_pool/tunnel.go:211-327 | in every run: some continuation delivers the block at least twice in all if and only if a submission of it is still on its way, or its arrivals and its complete copies that wait on tunnels still read are at least two |
| `Fates.OnceUnlessFullFail` | tunnel_pool/tunnel.go:230-240 | a block submitted once arrives at most once in every run in which no failed write of it got through |
| `Fates.ToHand` | tunnel_pool/tunnel.go:161-209 | wherever a block is on its way, a tunnel that works at both ends can get it without anything being written, discarded, delivered or lost of it |
| `Fates.AnyTunnelServes` | tunnel_pool/tunnel.go:161-246 | any free tunnel that works, however much it has sent, can take the next block of either queue and write it; it is then free again and the block is in sight of the far end |
| `Fates.RetryArms` | tunnel_pool/tunnel.go:230-240 | every retry goroutine can put its block, and only that, back in the retry queue, or discard it |
| `Fates.FailsAnywhere` | tunnel_pool/tunnel.go:211-246 | a write can fail at any byte: what got through stays on the wire, the tunnel takes no more and is free, and exactly that block is to be retried |
| `Fates.KeepAliveWritten` | tunnel_pool/tunnel.go:313-353 | a ping or pong gets on the wire of any tunnel that works and leaves the block the tunnel holds alone |
| `Fates.BlocksCanBeLost` | tunnel_pool/tunnel.go:233-239 | for every block there is a run that submits it once, discards it, and after which it never arrives |
| `Fates.WrittenCanBeLost` | tunnel_pool/tunnel.go:216-245 | for every block there is a run that submits it once, writes it successfully, and after which it never arrives |
| `Fates.BlocksCanArriveTwice` | tunnel_pool/tunnel.go:230-240 | for every block there is a run that submits it once and delivers it twice |
| `ClientPool.RunInv` | tunnel_pool/manager.go:92-191 | in every interleaving, tunnels that exist, are promised or were replaced never exceed the target, and a shortfall is owed to a waiting notification |
| `ClientPool.Replenished` | tunnel_pool/manager.go:92-191 | the pool never exceeds the target, and when no notification runs or waits it holds exactly the target if and only if the last one replaced no tunnel |
| `ClientPool.FreshReplacesNone` | tunnel_pool/pool.go:45-51 | tunnel IDs that are not in use when drawn never replace a tunnel |
| `ClientPool.FreshAlwaysFull` | tunnel_pool/manager.go:92-191 | with such IDs a quiet pool is always full |
| `ClientPool.CanRefill` | tunnel_pool/manager.go:92-191 | from every reachable state in which a notification waits or no tunnel was replaced, the pool can come to rest with exactly the target number of tunnels |
| `ClientPool.StaysShort` | tunnel_pool/manager.go:92-191 | and from no other: as long as no tunnel dies, it comes to rest short |
| `ClientPool.ClashLeavesPoolShort` | tunnel_pool/pool.go:50-51 | with a repeated ID a quiet pool can be short |
| `ClientPool.ClientManager.Demote` | tunnel_pool/manager.go:153-163 | moving a failed endpoint swaps it with the next, or with the first if it is the last; the list stays a permutation up to the added scheme |
| `ClientPool.ClientManager.Dial` | tunnel_pool/manager.go:98-191 | over any sequence of failures and successes the endpoints stay a permutation up to the added scheme; with usable endpoints exactly min(needed, connections) tunnels are created, the endpoint dialled at each turn is the one at the index computed from the tunnels still needed, and the list changes exactly at turns that fail at the endpoint which failed last, by moving that endpoint |
| `ClientPool.ClientManager.OnFailure` | tunnel_pool/manager.go:145-168 | a failed endpoint is moved exactly if failed endpoints are not retried and it also failed the last time; otherwise the list stays, and its weight grows up to 5 |
| `ClientPool.ClientManager.Turn` | tunnel_pool/manager.go:98-191 | one turn of the loop: which endpoint is dialled, when it is moved, and that only a connection uses up a tunnel to create |
| `ClientPool.UrlTwice` | tunnel_pool/manager.go:123-125 | adding the scheme is idempotent |
| `ServerPool.ServerManager.Notify` | tunnel_pool/manager.go:211-238 | performs the notification step; afterwards triggered holds if and only if the pool is empty |
| `ServerPool.RunInv` | tunnel_pool/manager.go:211-238 | in every run the only countdown not cancelled is the one the cancel function belongs to, and it was started when the pool became empty |
| `ServerPool.OneCountdown` | tunnel_pool/manager.go:211-238 | in every run at most one countdown is not cancelled, and only while the pool is empty |
| `ServerPool.EmptyThroughout` | tunnel_pool/pool.go:80-84 | between the step recorded as the start of the empty period and the present the pool was empty in every state |
| `ServerPool.RemovedOnlyAfterEmptyPeriod` | tunnel_pool/manager.go:220-230 | in every run that removes the peer, ties included: before the removing step there were two states EmptyPoolDestroySec apart with the pool empty in all states between; without a pending cancellation that period reaches up to the removal |
| `ServerPool.FireExact` | tunnel_pool/manager.go:220-230 | in every run with the peer still there: some timer removes it now if and only if the pool had a tunnel and has been empty for EmptyPoolDestroySec up to now |
| `ServerPool.TiedFireExact` | tunnel_pool/manager.go:220-230 | and a timer whose cancellation is pending removes it if and only if its countdown had run out in a state before it was cancelled |
| `ServerPool.RunTallies` | tunnel_pool/pool.go:45-84 | in every run the pool's size is the tunnels added less those removed, and the clock the ticks |
| `ServerPool.RemovalEndsEmptyPeriod` | tunnel_pool/manager.go:211-238 | a removal comes at the end of such a period if and only if the countdown of the present empty period has run out at that step, which it has whenever the cancellation was not pending |
| `ServerPool.EmptyUpToNow` | tunnel_pool/manager.go:211-238 | in every run in which a tunnel has come and gone, the pool has been empty for EmptyPoolDestroySec up to now if and only if the countdown of the present empty period has run out |
| `ServerPool.TieRemovesLivePeer` | tunnel_pool/manager.go:220-230 | with a tie, a run exists that removes a peer with a tunnel |
| `ConnectionPool.Pool.AddConnection` | connection_pool/pool.go:71-81 | performs the add step on the pool's map and the counter shared by all pools; a counter equal to the summed sizes of all maps stays so if and only if the ID was not in use |
| `ConnectionPool.Pool.RemoveConnection` | connection_pool/pool.go:83-95 | performs the remove step, also when the entry is gone already; a counter equal to the summed sizes of all maps stays so |
| `ConnectionPool.RemovedIsGone` | connection_pool/pool.go:83-95 | in every run without an ID drawn that is in use, a removal takes the connection out of the map |
| `ConnectionPool.CounterExactIffNoClash` | connection_pool/pool.go:48-95 | the counter equals the summed sizes of all maps in every state of a run if and only if no connection was added under an ID in use |
| `ConnectionPool.AcceptingNeverClashes` | connection_pool/pool.go:98-125 | on the accepting side no add replaces a live entry, even when an ID comes back after removal, so the counter is exact and every live object is filed |
| `ConnectionPool.ClashDrifts` | connection_pool/pool.go:71-81 | the first add under an ID in use makes the counter wrong at once |
| `ConnectionPool.ClashLeavesCounterHigh` | connection_pool/pool.go:48-95 | and it stays wrong after both connections are gone |
| `Socks5.Offers` | client/client.go:252-285 | the scan finds a method if and only if it was offered |
| `Socks5.ReadGreeting` | client/client.go:230-246 | succeeds if and only if the input starts with a greeting, and consumes exactly that; another version is told apart from a short input, and nothing is written |
| `Socks5.ReadCredentials` | client/client.go:300-334 | succeeds if and only if the input starts with a username/password message, and yields and consumes exactly that; nothing is written, also on failure |
| `Socks5.PerformPasswordAuth` | client/client.go:300-346 | succeeds if and only if the input starts with exactly the configured credentials; the reply is the status byte for success or failure, or nothing if no credentials could be read |
| `Socks5.Handshake` | client/client.go:230-297 | succeeds if and only if the greeting is acceptable: without auth the no-auth method is offered, with auth the password method is offered and both credentials match; consumes exactly those messages; the bytes answered are stated for success and for every error |
| `Socks5.ReadAddress` | client/client.go:369-405 | succeeds if and only if an address of the announced type follows, and yields its bytes; an unknown type is answered with its reply code, a short input with nothing |
| `Socks5.ProcessRequest` | client/client.go:349-423 | succeeds if and only if a CONNECT request follows (and the reply can be written); yields the address bytes and port it encodes and consumes exactly the request; the reply is stated for success and for every error |
| `Socks5.Serve` | client/client.go:230-423 | a session is served if and only if its input is an acceptable handshake followed by a CONNECT request, with the payload after them untouched; all bytes written are stated for every outcome |
| `Socks5.Layouts` | client/client.go:349-446 | requests and replies byte by byte: version, command, reserved byte, address type, address, and the port with its high byte first |
| `Socks5.GreetsUnique` | client/client.go:230-246 | an input starts with at most one greeting |
| `Socks5.PresentsUnique` | client/client.go:300-334 | an input starts with at most one username/password message |
| `Socks5.NamesUnique` | client/client.go:369-405 | an input encodes at most one address |

## Left out

Assumptions of the model:

- Each encrypted write on a tunnel is one step. The program calls `packThenSend` from three goroutines
  (tunnel_pool/tunnel.go:206, 313, 353) with no lock around the shared nonce and buffer; interleaved writes of one
  tunnel are not modelled.
- A websocket takes nothing after its first failed write, as the websocket library guarantees; a failed ping or pong does
  not close the tunnel in this program, so the model needs this.
- Writes of one connection follow one another: concurrent `Write` calls on one connection may interleave their blocks,
  and then "the bytes written" has no single order.
- A failed write on a tunnel may have passed any part of its bytes, also all of them. A socket that reports an error only
  when it took fewer bytes than it was given would rule the last case out; then no failed write gets through, and
  `Fates.OnceUnlessFullFail` is the theorem: a block submitted once arrives at most once.
- A disconnect block carries at least one byte and a ping or pong eight, as their constructors make them; the program
  indexes these bytes without a check.
- A tunnel that is added on the server under an ID in use leaves the size of the pool, and so the countdown, as it is;
  such steps are not listed in `ServerPool`.
- AEAD, key derivation and their libraries: a cipher is any family of seal and open functions with
  open(n, seal(n, p)) = p and ciphertexts longer by a fixed overhead. Integrity against an attacker is not stated.

Not modelled:

- Behaviour after a local `InboundConnection.Close` (closed channels), and `InboundConnection.Write`, `CloseRead` and
  `CloseWrite` beyond the blocks they send.
- The read after cancellation in `InboundRelay` (tunnel_pool/tunnel.go:259-282), which forwards any block type: a
  block read there is, in the model, the last one to arrive before the hangup, and a ping or pong is never forwarded.
- Two `connect` calls at the same time for duplicate Connect blocks (connection/outbound_connection.go:153-180), whose
  check and dial are not one step; and a Connect that follows a failed dial.
- When connections leave their pool: in the step system a removal can happen at any time.
- `reader.WriteTo` (tunnel/tunnel.go:154-186), which no relay uses; the exchange of peer IDs when a tunnel is made.
- Byte totals and other statistics, latency, ping timing, deadlines as durations, back-off sleeps.
- Liveness under fairness (what is proved is that a continuation exists), channel capacities and deadlock.
- The early return when the TLS configuration of a wss endpoint cannot be made, and the return when the pool's context
  is done, which only end `ClientPool.ClientManager.Dial` sooner.
- Text formatting of SOCKS5 hosts, TCP and DNS, peer groups, configuration, command line, logging, HTTP status pages.
- EndToEnd.NothingWithheld, Dispatching.DeliveredComesOut: speak of objects that numbered at most 2^32 blocks, because a block that arrives a whole lap
  of IDs early can be dropped as old, so that having arrived is not enough beyond.

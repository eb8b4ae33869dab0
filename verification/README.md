# Coded transport: a verified model

The transport sends a byte stream over UDP. The sender cuts the stream into length-prefixed packets,
groups them into blocks, and sends packets of a block as they are or as random linear combinations over
the field with 256 elements, of which only the seed travels. The receiver draws the coefficients again,
reduces each packet on line into an echelon matrix, solves the matrix by back-substitution, and delivers
packets as soon as they are known. Acknowledgements name the first block that is not complete and the
number of independent equations known of it. Blocks live in a ring of slots at both ends.

This project models the codec, both ends of the protocol, the network between them and the buffers they
use, and proves in Dafny 4.11 that the pieces fit: the main theorem, `Safety.DeliveryIsSafe`, says that in
every state of every run the bytes delivered are a prefix of the bytes accepted.

`dafny verify dfyconfig.toml` checks everything.

## How it is built

* **Field.** `FieldTables` holds the three tables of the source and checks them entry by entry against
  multiplication by 3; `Gf256` proves that the table product is polynomial multiplication modulo
  x^8+x^4+x^3+x+1 (the field of section 4.2 of FIPS 197) and derives the field laws; `Linear` lifts them to
  vectors.
* **Codec on values.** `Framing`, `Random`, `Packets`, `Elimination`, `Decoder` say what the source does to
  a packet, a row and a block; `Span` shows that elimination decides membership in a span; `Recovery` that
  every stored row stays a true equation about the source packets and that back-substitution solves them;
  `NarrowWindows` when a pass of the elimination is a subtraction and what happens when it is not.
* **Codec in place.** `CodecLoops` and `CodedBlocks` are the same code on arrays and payload buffers, with
  the loops of the source. Each method is proved against the function on values.
* **The two ends.** `Client` and `Server` are the two state machines on values. `ClientSockets` is the
  receiver with its ring of in-place blocks, its stream and its generator: `BldAck` is proved to do what
  `Client.Receive` says, with no aliasing between blocks or buffers. `ServerSockets` has the loops of the
  sender.
* **The system.** `Transport` puts both ends and the two directions of the network into one system of atomic
  steps. `Invariants`, `SenderProofs`, `NetworkProofs`, `Delivery` and `Safety` prove its invariants;
  `QueueBounds`, `UncodedRows`, `Requests`, `Windows` and `PathHistory` what follows for queues, rows, requests,
  windows and losses in every run; `EarlyDelivery` and `LastBytes` when everything sent is delivered;
  `Reach`, `FirstBlock`, `LateAcks`, `GuardRuns`, `ForeignPackets` and `SmallWindows` build runs from the start in
  which the code goes wrong, and show for which sizes there are none.
* **Buffers and estimates.** `QBuffer`, `Fifo`, `SkbPool` are the circular queue, the circular byte stream
  and the packet pool as classes; `LossEstimator` is the loss estimator over the reals.

The sizes of blocks, rings, payloads and windows are symbolic constants (`Config`), bounded only by the
width of the fields that carry them.

## What a run may do

A run is a sequence of steps from the initial state: the user's bytes are accepted; any pending coding job
is run, in any order; the sending thread looks at a block, sends a packet or moves on; a data packet is
lost, repeated, overtaken, or received; an ack is lost, repeated, overtaken, or taken; the path times out.
The seeds, the loss estimate, the time, the deadline of a packet, the room in the user's buffer and the
congestion window that an ack leads to are chosen freely at each step. What the code needs, and a run is
therefore held to, is this:

* Coded packets of one block do not overtake each other when their widths differ (`Transport.MaySwap`).
  `NarrowWindows` shows that the code loses coefficients otherwise.
* The sending thread has no packets coded for the block one ring past the current one (`Transport.Strict`).
  The guard at src/srvctcp.c:1056 lets it reach that block. `Windows.GuardAdmitsForeignBlock` shows that
  packets it then has coded encode another block, and `ForeignPackets.GuardBreaksReceiver` that this breaks a
  receiver that is ahead; a visit that finds enough packets queued already, or needs none, is harmless and part of
  every run. `SmallWindows.TraceIsRun` shows that the premise always holds when the window never exceeds a
  block, and `ForeignPackets.GuardIsHarmless` that otherwise there are runs from the start that break the receiver.

`Requests.RequestIsExact` has no premise on acks: it says of every run that the request is exact until a late ack
claims more than is known of the current block and no more than that block holds.
`LateAcks.LateAckDropsRequest` gives such a run, and `LateAcks.RequestStaysZero` what follows from it.

Safety says that nothing wrong is delivered. That all that was sent is delivered is not so:
`LastBytes.EverythingDelivered` shows that what the receiver knows of a block waits for one more packet when the
packet that came last completed the block before (src/clictcp.c:747-777 pushes early before it decodes, and not
after), and `LastBytes.LastBytesStall` gives a run after which that packet is never sent.

The runs that go wrong use the freedom just described: the window an ack leads to, the times and the loss
estimate are chosen to suit. `ForeignPackets.SteadyRunBreaks` keeps the loss estimate throughout each pass of
send_segs, as the source does, and needs MAX_CWND above BLOCK_SIZE + NUM_BLOCKS - 2;
`ForeignPackets.GuardIsHarmless` lets it vary from visit to visit, and needs only MAX_CWND above BLOCK_SIZE.

Where names and comments of the source suggest something else than its code does, the model follows the
code. The request after an ack is a minimum of unsigned numbers, so a difference that would be negative
leaves the request as it is (src/srvctcp.c:1392-1402). A coded packet mixes the whole block, whatever the
coding window of its job says (src/srvctcp.c:1742). The packets on the fly that a request is weighed against
are those counted for the block visited before, since the mean is taken before the count is updated
(src/srvctcp.c:1076 and 1094-1096). The limit on blocks that send_segs reads again after each block goes into
a new variable, so the old limit stays in force (src/srvctcp.c:1198).

## Model

| member | source | states |
|---|---|---|
| FieldTables.AntilogStep | src/util.c:39 | Every entry of the antilog table is 3 times the one before it in the field of section 4.2 of FIPS 197: its double, reduced by x^8+x^4+x^3+x+1, plus itself. |
| FieldTables.AntilogOfLog | src/util.c:18 | The antilog of the logarithm of a nonzero byte is that byte, for all 255 entries. |
| FieldTables.LogBound | src/util.c:150-161 | Logarithms of nonzero bytes are below 255, so a product never reads beyond the 511 antilogs. |
| FieldTables.LogOfInverse | src/clictcp.c:18 | The logarithms of a nonzero byte and of its entry in inv_vec add up to a multiple of the order of the group, and that entry is not 0. |
| Gf256.AntilogIsPower | src/util.c:39 | Entry i of the antilog table is the i-th power of 3 under polynomial multiplication. |
| Gf256.FastFFmultIsMul | src/util.c:156-161 | Table multiplication by a byte given by its logarithm is polynomial multiplication modulo x^8+x^4+x^3+x+1, for every byte and every nonzero factor. |
| Gf256.FFmultIsMul | src/util.c:163-169 | The two-sided table product is the same polynomial product for all pairs of bytes, zeros included. |
| Gf256.MulAddLeft | src/util.c:163-169 | Multiplication distributes over exclusive or from the left. |
| Gf256.MulAddRight | src/util.c:163-169 | Multiplication distributes over exclusive or from the right. |
| Gf256.MulCommutes | src/util.c:163-169 | Multiplication commutes. |
| Gf256.MulAssociates | src/util.c:163-169 | Multiplication is associative. |
| Gf256.MulInverse | src/clictcp.c:855-868 | inv_vec holds multiplicative inverses: the factor normalize divides by undoes the leading coefficient. |
| Gf256.MulNonzero | src/clictcp.c:661-672 | There are no zero divisors: a multiple of a nonzero coefficient by a nonzero pivot is not 0. |
| Framing.NetworkOrder | src/srvctcp.c:1803-1806 | The two length bytes written in network order read back as the length, for every 16-bit length. |
| Framing.DataOfFrame | src/clictcp.c:812-828 | The data the receiver takes from behind a length prefix is the data the sender framed. |
| Framing.BytesConcat | src/clictcp.c:965-985 | Writing packets out in two portions pushes the bytes of writing them out together. |
| Framing.ReadBlockKeepsBytes | src/srvctcp.c:1791-1817 | readBlock appends packets that carry exactly the bytes it takes, however much the block held before; it stops short of the buffer only at a full block, and takes nothing exactly when the block is full or the buffer empty. |
| Framing.ReadBlockFills | src/srvctcp.c:1791-1817 | readBlock takes all bytes there is room for, PAYLOAD_SIZE - 2 for each packet the block lacks, and cuts them in order into as few packets as they need: all are full but the last. |
| Framing.FrameLayout | src/srvctcp.c:1800-1806 | A payload is the length in network order, the data, and zeros. |
| Packets.EncodesAddScaled | src/clictcp.c:661-672 | If two payloads are the combinations their vectors name, so is the payload after a subtraction, byte for byte. |
| Packets.EncodesUnit | src/clictcp.c:608-609 | A unit vector names one source packet, and no other payload satisfies it. |
| Packets.EncodesGrow | src/srvctcp.c:304-326 | An equation about the packets of a block stays true when the block grows. |
| Packets.UncodedPacketOf | src/srvctcp.c:1703-1718 | An uncoded packet, read as coefficient 1 at its start packet, names its own content. |
| Packets.CodedPacketOf | src/srvctcp.c:1735-1775 | The coefficients the receiver draws again from a coded packet's seed and block number name exactly the combination the sender put into its payload. |
| Random.SomeSeedIsUseful | src/srvctcp.c:1746-1754 | For every block number one of the first three seeds gives a first coefficient that is not 0, so that the loop that redraws seeds can always end. |
| Random.FirstWords | src/util.c:177-188 | The first three words drawn from a seed that sets both halves of the state are those of 32-bit arithmetic with the constants of the source. |
| CodecLoops.FastRand.Seed | src/util.c:177-181 | Seeding sets the three registers to the state Seeded describes. |
| CodecLoops.FastRand.Next | src/util.c:183-188 | One draw advances all three registers in 32-bit arithmetic and returns their exclusive or. |
| CodecLoops.DrawCoefficients | src/clictcp.c:604-607 | The drawing loop leaves the coefficients of the packet in the array, and nothing else changed. |
| CodecLoops.TestEmpty | src/clictcp.c:893-898 | Or-ing the coefficients together is 0 if and only if all of them are. |
| CodecLoops.ShiftRowInPlace | src/clictcp.c:872-890 | The in-place shift returns the number of leading zeros, moves the rest to the front and pads with as many zeros; bytes behind the window stay. |
| CodecLoops.ScaleInPlace | src/clictcp.c:858-866 | The byte loop over the tables multiplies the first bytes of a buffer in the field and leaves the others. |
| CodecLoops.NormalizeInPlace | src/clictcp.c:855-868 | Window and payload are both multiplied by the inverse of the leading coefficient, whether or not it was 1. |
| CodecLoops.AddScaledInPlace | src/clictcp.c:669-672 | The byte loop over the tables adds the multiple of one payload to another in the field. |
| CodecLoops.EncodePayload | src/srvctcp.c:1755-1771 | The encoding loops, which skip coefficient 0, leave the combination of all source packets in the payload. |
| CodecLoops.UsefulAreThose | src/srvctcp.c:1746-1754 | The useful seeds are, in order, exactly the draws with some coefficient other than 0, wherever it stands. |
| CodecLoops.ChooseSeed | src/srvctcp.c:1746-1754 | Of what random() gives, the seed settled on is the first that draws a coefficient other than 0, wherever it stands; its coefficients are left in the array. |
| Elimination.Pass | src/clictcp.c:643-690 | A pass against a stored row leaves a window of the same width that starts at a strictly later column inside the block, with a nonzero first coefficient or none at all: this is why the loop ends. |
| Elimination.ReduceFillsEmptyRow | src/clictcp.c:616-642 | An innovative packet fills one row that was empty, at or after its start, with leading coefficient 1 and inside the block; the matrix stays in echelon form. |
| Elimination.PassSubtractsRow | src/clictcp.c:661-688 | When the window covers the stored rows, a pass subtracts a multiple of the whole row, over all columns of the block, and the window still covers. |
| Elimination.NewRowScales | src/clictcp.c:618-629 | The stored row is the window's vector times the factor its payload is multiplied by. |
| Span.ReduceIsRankTest | src/clictcp.c:616-690 | A covered window is dropped if and only if its coefficient vector lies in the span of the stored rows. |
| Span.ReduceExtendsSpan | src/clictcp.c:617-642 | After an innovative packet the rows span exactly the sums of an old combination and a multiple of the packet's vector. |
| NarrowWindows.PassIsSubtraction | src/clictcp.c:661-688 | Without any premise: a pass subtracts the multiple of the stored row if and only if that row has no coefficient beyond the packet's window. |
| NarrowWindows.PassIsSoundIfCovered | src/clictcp.c:661-688 | For every window and row: a pass turns true equations into a true equation for all source packets if and only if the row has no coefficient beyond the window. |
| NarrowWindows.NarrowPacketBreaksRow | src/clictcp.c:661-688 | Whenever a packet meets a row that reaches beyond its window and what the pass leaves is stored, there are source packets for which all rows and the packet were true equations and the stored row is false. |
| NarrowWindows.NarrowPacketExists | src/clictcp.c:661-688 | Such packets and rows exist: a packet of width 2 that meets the sum of three packets. |
| Decoder.FullBelowTop | src/clictcp.c:794-797 | By counting: a block has as many rows as its highest packet index if and only if every row below that index is stored. |
| Decoder.AbsorbValid | src/clictcp.c:598-702 | A packet adds at most one row and one degree of freedom, keeps every stored row as it was, and keeps the counters of the block in step with its rows. |
| Decoder.AbsorbWidest | src/clictcp.c:638-641 | max_coding_wnd is the length of the longest row stored. |
| Decoder.UnwrapValid | src/clictcp.c:920-956 | unwrap leaves every row below the highest packet index solved, those already pushed untouched, and the counters valid. |
| Decoder.PartialWriteStopsInside | src/clictcp.c:798-850 | While a block lacks a row, the loop of partial_write stops at a row inside the block. |
| Decoder.ReadyEnd | src/clictcp.c:798-850 | The rows pushed early are all solved, and the loop stops only at an unsolved row, at the end of the block or for want of room. |
| Recovery.ReduceSound | src/clictcp.c:616-690 | If the stored rows and an arriving covered window are true equations about the source packets, so is the row the window becomes. |
| Recovery.AbsorbSound | src/clictcp.c:598-702 | Receiving a packet of the block, uncoded or coded and covering, keeps every stored row a true equation about its source packets, byte for byte. |
| Recovery.AbsorbCovers | src/clictcp.c:616-642 | A block whose rows a later packet can be reduced against without loss stays so when a packet no wider is received first. |
| Recovery.UnwrapRowSound | src/clictcp.c:937-954 | Substituting solved rows into a row leaves its own source packet in it. |
| Recovery.UnwrapSound | src/clictcp.c:920-956 | unwrap keeps every equation true and solves the system: each row below the highest packet index that has not been pushed ends up with its source packet as content. |
| Recovery.PartialWriteDelivers | src/clictcp.c:785-852 | partial_write pushes the bytes of the source packets from the first not yet pushed on, each once and in order, and records how far it got. |
| Recovery.WriteBlockDelivers | src/clictcp.c:960-986 | What a full block has pushed early, followed by what writeAndFreeBlock pushes, is exactly the bytes of its source packets. |
| Recovery.BlockOfGrow | src/srvctcp.c:304-326 | Equations stored while a block is still being filled stay true when the sender adds packets to it, also behind rows already unwrapped. |
| Client.AckBlock | src/clictcp.c:715-721 | The ack loop ends at the first block at or after the current one that is not full, or at the end of the ring when all are. |
| Client.StoreBeyond | src/clictcp.c:592-593 | A packet past the window raises the highest index of its slot and is not stored. |
| Client.Decode | src/clictcp.c:752-777 | The decode loop ends, with a current block that still lacks a row. |
| Client.AckAgreesWithDelivery | src/clictcp.c:711-777 | The block number and degrees of freedom acknowledged before decoding are those of the receiver after decoding, also when all slots were full and the index wraps. |
| Delivery.ReceiveDelivers | src/clictcp.c:566-780 | One packet: the equations stay true, and what has been delivered grows by exactly the bytes pushed, whatever room there was. |
| Delivery.DeliveredIsPrefix | src/clictcp.c:747-777 | What a receiver with true equations has delivered is a prefix of the bytes of the sender's blocks. |
| Delivery.ReceiveCovers | src/clictcp.c:584-707 | Receiving a packet keeps every block able to take later packets at least as wide. |
| EarlyDelivery.PartialWriteExhausts | src/clictcp.c:785-852 | With room in the user's buffer partial_write stops only at a row that is not solved, and with as many equations as packets heard of it pushes them all. |
| EarlyDelivery.ReceiveExhausts | src/clictcp.c:747-777 | With room in the user's buffer, after any packet nothing of the current block could still be pushed if and only if the receiver stayed at its block, or knows nothing it could push of the block it moved to: of that block nothing has been pushed. |
| LastBytes.EverythingDelivered | src/clictcp.c:747-777 | In every run, when a packet has been received with room in the user's buffer and the receiver then has all that was sent, all bytes accepted have been delivered if and only if it stayed at its block, or the block it moved to carries none. |
| LastBytes.LastBytesArrive | src/clictcp.c:747-777 | Bytes that the receiver has and has room for are delivered without more packets in all runs if and only if blocks hold a single packet. |
| LastBytes.LastBytesStall | src/clictcp.c:747-777 | For blocks of two packets or more there is a run after which both ends are done, bytes accepted are at the receiver but not delivered, and nothing delivers them, whatever happens, until the sender is given more bytes. |
| Requests.SuccessiveAcksAdvance | src/clictcp.c:711-725 | The acks to two packets in succession are in lexicographic order. |
| CodedBlocks.CodedBlock.constructor | src/util.h:100-110 | A block starts empty, with arrays of its own. |
| CodedBlocks.CodedBlock.Init | src/clictcp.c:904-917 | Resetting empties the rows and the counters and lets go of all buffers. |
| CodedBlocks.CodedBlock.Hear | src/clictcp.c:993-1001 | The highest packet index becomes the maximum of what it was and the end of the packet, and nothing else changes. |
| CodedBlocks.CodedBlock.OpenWindow | src/clictcp.c:603-613 | Drawing and shifting leave the window of Decoder.FirstWindow in the array, for coded and uncoded packets. |
| CodedBlocks.CodedBlock.SubtractRow | src/clictcp.c:661-667 | The coefficient loop over row_len subtracts the stored row from the window; what lies beyond the window is lost. |
| CodedBlocks.CodedBlock.StoreRow | src/clictcp.c:620-641 | Copying the window into the matrix fills exactly its row, with the window's buffer as content, and counts it. |
| CodedBlocks.CodedBlock.KeepWindow | src/clictcp.c:617-642 | Cutting, normalizing and copying in place store the row NewRow describes, and the block keeps the packet's buffer. |
| CodedBlocks.CodedBlock.PassRow | src/clictcp.c:643-689 | The three in-place loops of a pass have the effect of Elimination.Pass on window and payload, and leave the block alone. |
| CodedBlocks.CodedBlock.Eliminate | src/clictcp.c:598-702 | The elimination loop on arrays computes Decoder.Absorb; the buffer joins the block exactly when a row was filled. |
| CodedBlocks.CodedBlock.Arrive | src/clictcp.c:584-707 | Recording the packet index and reducing the packet computes Absorb after Raise, or Raise alone outside the window, and keeps the block valid. |
| CodedBlocks.CodedBlock.UnwrapRowInPlace | src/clictcp.c:937-954 | Substitution in the row's own buffer computes Decoder.UnwrapRow and changes no other row, although the rows share no copies. |
| CodedBlocks.CodedBlock.UnwrapInPlace | src/clictcp.c:920-956 | The loop from the last row but one up to the first not pushed computes Decoder.Unwrap. |
| CodedBlocks.CodedBlock.TestSolved | src/clictcp.c:799-808 | The test finds a row ready if and only if it is stored and only its leading coefficient is not 0. |
| CodedBlocks.CodedBlock.DataAt | src/clictcp.c:814-828 | What is pushed of a row is the data behind its length prefix. |
| CodedBlocks.CodedBlock.SendRow | src/clictcp.c:824-834 | After one more row has been sent, the stream has received the data of all rows so far, once and in order, unless it was released. |
| CodedBlocks.CodedBlock.SendSolved | src/clictcp.c:798-851 | The loop sends only solved rows, records where it stopped inside the block, and stops only where a row is not solved or does not fit, unless the stream is released. |
| CodedBlocks.CodedBlock.WriteReady | src/clictcp.c:785-852 | partial_write on the arrays and the byte stream pushes what Decoder.PartialWrite describes for some room; unless the stream is released it stops only at a row that is not solved or that the stream lacks room for, and with as many equations as packets heard of only for want of room. |
| CodedBlocks.CodedBlock.WriteRest | src/clictcp.c:960-986 | On a stream that is not released, exactly the bytes of Decoder.WriteBlock are pushed. |
| CodedBlocks.CodedBlock.Flush | src/clictcp.c:760-766 | A full block is unwrapped, written out and left empty. |
| ClientSockets.ClientSocket.constructor | src/clictcp.c:1214-1260 | The socket starts at block 1 with empty blocks that share no storage. |
| ClientSockets.ClientSocket.ArriveAt | src/clictcp.c:584-707 | Reducing a packet in place in one slot computes Raise and Absorb there, changes no other slot, and leaves the blocks without shared storage. |
| ClientSockets.ClientSocket.Store | src/clictcp.c:584-707 | Only the block in the packet's slot changes, and it becomes what Client.Store says; the ring of blocks stays free of aliasing. |
| ClientSockets.ClientSocket.BuildAck | src/clictcp.c:711-725 | The ack loop over the ring builds the ack of Client.BuildAck. |
| ClientSockets.ClientSocket.Push | src/clictcp.c:747-749 | A current block that lacks rows is pushed from early, with the effect and the bytes of Client.Push for some room, until nothing more of it can be pushed but for want of room. |
| ClientSockets.ClientSocket.WriteOut | src/clictcp.c:755-769 | One turn of the decode loop writes the current block out, empties its slot and moves on. |
| ClientSockets.ClientSocket.Decode | src/clictcp.c:752-777 | The decode loop over the ring has the effect of Client.Decode and pushes its bytes. |
| ClientSockets.ClientSocket.BldAck | src/clictcp.c:566-780 | bldack as a whole, with its arrays, buffers and stream, does what Client.Receive says: the same state, the same ack, and on a stream that is not released the same bytes; if it stays at its block, nothing more of that can be pushed but for want of room. |
| Server.SendCtcpFillsWindow | src/srvctcp.c:291-371 | send_ctcp leaves bytes unread only when all slots up to the end of the window are taken and the last block is full as well. |
| SenderProofs.AddPacketsKeeps | src/srvctcp.c:304-326 | Adding packets to the newest block keeps blocks, queues, counters and jobs consistent. |
| SenderProofs.JobPacketsEncode | src/srvctcp.c:1692-1777 | A job makes as many packets as it asks for; all are labelled with its block, encode it, and are as wide as the block or single packets. |
| UncodedRows.JobQueues | src/srvctcp.c:1692-1777 | A job queues, behind what is there, the rows it asks for, in order and as they are, then one combination of the whole block for each seed, in order: as many packets as it asks for. Nothing else changes but that the job is done. |
| SenderProofs.CodingJobKeeps | src/srvctcp.c:1651-1785 | Running any pending job keeps blocks, queues, counters and jobs consistent. |
| SenderProofs.AskForKeeps | src/srvctcp.c:1158-1178 | Asking for more packets raises the counter by what the new job will add. |
| SenderProofs.SendKeeps | src/srvctcp.c:1180-1191 | Sending takes one packet from queue and counter alike. |
| SenderProofs.FreeOneKeeps | src/srvctcp.c:1347-1389 | Freeing a block clears its slot for the block one ring later and keeps all others. |
| NetworkProofs.CodingJobNet | src/srvctcp.c:1692-1777 | Packets a job queues are no narrower than those of the block already queued or in flight, and the receiver can reduce them without loss. |
| NetworkProofs.ReceiveNet | src/clictcp.c:584-707 | Receiving keeps every packet still in flight or queued expected and covered at the receiver. |
| ServerSockets.FillBlock | src/srvctcp.c:1791-1817 | The loop of readBlock computes Framing.ReadBlock. |
| ServerSockets.DofNeeded | src/srvctcp.c:1113-1115 | The counting loop computes Server.Needed. |
| ServerSockets.ServerSocket.constructor | src/srvctcp.c:1898-1956 | The socket starts in the sender's initial state. |
| ServerSockets.ServerSocket.TakeIn | src/srvctcp.c:301-328 | One turn of the loop of send_ctcp adds packets as Server.AddPackets says, or changes nothing when the newest block is full. |
| ServerSockets.ServerSocket.Accept | src/srvctcp.c:271-380 | The loop of send_ctcp has the effect of Server.SendCtcp and returns the number of bytes it took. |
| ServerSockets.ServerSocket.QueueUncoded | src/srvctcp.c:1703-1718 | The rows asked for are queued behind what the queue of the block holds, in order; other queues stay. |
| ServerSockets.ServerSocket.MakeCoded | src/srvctcp.c:1737-1771 | Drawing until a seed is of use and encoding in arrays make the packet of the first useful draw, and consume the draws up to it. |
| ServerSockets.ServerSocket.QueueCoded | src/srvctcp.c:1735-1775 | One coded packet for each of the first useful draws is queued behind what the queue of the block holds, in order; other queues stay. |
| ServerSockets.ServerSocket.Code | src/srvctcp.c:1651-1785 | coding_job, its uncoded and its coded loop, has the effect of Server.CodingJob for the seeds its draws settle on. |
| ServerSockets.ServerSocket.CurrOnFly | src/srvctcp.c:1035-1041 | The loop over the ring computes Server.CountLive, which Windows.FlightIsExact shows to be the outstanding packets of the current block in time. |
| ServerSockets.ServerSocket.Start | src/srvctcp.c:1012-1055 | If the window has room a pass begins with the effect of Server.StartSending; otherwise nothing changes. |
| ServerSockets.ServerSocket.Visit | src/srvctcp.c:1056-1178 | One turn of the loop over blocks has the effect of Server.VisitBlock. |
| ServerSockets.ServerSocket.Send | src/srvctcp.c:1180-1191 | Sending one packet has the effect of Server.SendOne and stores its deadline in the slot of its number. |
| ServerSockets.ServerSocket.Leave | src/srvctcp.c:1194 | The next block is due, with the window and the count left by this one. |
| ServerSockets.ServerSocket.Free | src/srvctcp.c:1347-1389 | The freeing loop of handle_ack has the effect of Server.FreeBlocks. |
| ServerSockets.ServerSocket.HandleAck | src/srvctcp.c:1287-1486 | handle_ack has the effect of Server.HandleAck, with MIN taken on unsigned numbers. |
| ServerSockets.ServerSocket.Timeout | src/srvctcp.c:930-941 | A timeout gives up what is outstanding and drops the window, if anything is outstanding. |
| Safety.AcceptKeeps | src/srvctcp.c:271-380 | Accepting bytes keeps the invariants of the whole system, and the bytes accepted are those the blocks carry. |
| Safety.FreeBlocksCore | src/srvctcp.c:1347-1389 | Freeing blocks on an ack keeps sender, network and receiver consistent, also when the sender runs past its last block and a new one is opened. |
| Safety.AckSound | src/clictcp.c:711-725 | The ack a packet gives rise to names no block the receiver has not reached and no more degrees of freedom than that block has packets. |
| Safety.TakeAckKeeps | src/srvctcp.c:1345-1486 | Taking any ack in flight, late, repeated or out of order, keeps the invariants. |
| Safety.StepKeeps | src/srvctcp.c:985-1200 | Every step of accepting, coding, sending, losing, repeating, reordering, receiving, acknowledging and timing out keeps the invariants of the whole system. |
| Safety.RunKeepsInv | src/srvctcp.c:985-1200 | Every state of every run satisfies the invariants. |
| Safety.DeliveryIsSafe | src/clictcp.c:747-777 | End to end: in every state of every run, the bytes delivered to the user are a prefix of the bytes send_ctcp accepted. |
| QueueBounds.OvershootBound | src/srvctcp.c:1108-1115 | send_segs never asks for more than twice what is requested, for all windows, counts and requests, if and only if the scaled loss rate is at most a half. |
| QueueBounds.RunTwice | src/srvctcp.c:1159-1191 | In every run at scaled loss rates up to a half, the counter of a slot is at most twice the packets of its block. |
| QueueBounds.CodingNeverBlocks | src/srvctcp.c:1692-1777 | In such runs the packets of any pending job fit into the queue of 2 * BLOCK_SIZE beside those there, so coding_job never waits while it holds the block. |
| QueueBounds.CountersConserved | src/srvctcp.c:1159-1191 | In every run the counter of a slot is what is queued for its block plus what pending jobs will add; everything queued for a block is labelled with it and encodes it, and its coded packets are in order of their widths. |
| UncodedRows.RowsOnce | src/srvctcp.c:1703-1718 | In every run each row of a block that is not done has been queued uncoded exactly once, or will be by the one pending job that asks for it; other rows never are. |
| QueueBounds.WaitForPacketEnds | src/srvctcp.c:1180-1183 | In every run, when send_one waits on an empty queue there is a pending job that puts a packet into that queue when it is run, whatever seeds it settles on. |
| Requests.StepIsExact | src/srvctcp.c:1390-1402 | From every state satisfying the invariants with an exact request, every step leaves it exact if and only if it is harmless: if it takes an ack for a freed block, that ack claims no more than is known of the current block, or more than the block holds. |
| Requests.RequestIsExact | src/srvctcp.c:1390-1402 | In every run, acks lost, repeated and reordered at will: in all states so far the request was the length of the current block less the most degrees of freedom acknowledged for it, even as the block grew, if and only if all steps so far were harmless. |
| Requests.InOrderRequest | src/srvctcp.c:1390-1402 | In runs that do not reorder acks every step is harmless, the request is the length of the block less the degrees of freedom last acknowledged, and no ack in flight is for a freed block. |
| Requests.StaleAckSpoilsRequest | src/srvctcp.c:1392-1395 | An ack for a block already freed leaves the request exact if and only if it acknowledges no more than is known, or more than the current block holds. |
| LateAcks.LateAckDropsRequest | src/srvctcp.c:1392-1402 | For blocks of two packets or more there is a run in which taking a late ack drops the request from 1 to 0 while the receiver knows nothing of the packet in the current block. |
| LateAcks.RequestStaysZero | src/srvctcp.c:1084-1115 | Once the request is 0 it stays 0 and send_segs finds nothing of the current block to send, through any steps of both ends and the network, until there are new packets for the block or an ack for a later one. |
| LateAcks.RequestAlwaysExact | src/srvctcp.c:1392-1402 | The request is exact in all runs, however acks are reordered, if and only if blocks hold a single packet. |
| Windows.WindowsOverlap | src/srvctcp.c:1345-1399 | In every run no ack names a block the receiver has not reached, the receiver is between the sender's current block and the one after its last, and blocks before the last are full and still held: no block the receiver needs is freed. |
| Windows.FreedIsDelivered | src/srvctcp.c:1347-1389 | In every run the bytes of all blocks the sender has freed have been delivered to the user in full. |
| Windows.NoPacketBeyondWindow | src/clictcp.c:592-593 | In every run every data packet in flight is well formed and below the receiver's branch for blocks that do not exist yet. |
| Windows.DofsNeverExceedLength | src/srvctcp.c:1390-1411 | In every run the receiver's degrees of freedom of a block are at most the packets the sender has put into it, so a request is never negative. |
| Windows.GuardAdmitsForeignBlock | src/srvctcp.c:1056 | When send_segs has a block coded, the packets made encode the block they name if and only if that block is before the end of the ring; the guard lets through one more. |
| ForeignPackets.GuardBreaksReceiver | src/srvctcp.c:1056-1178 | From every state satisfying the invariants in which the guard lets through the block one ring past the current one, packets of it are missing and the receiver is ahead of the sender, steps lead to a packet that makes the receiver's equations false, for every seed coding_job can settle on. |
| ForeignPackets.GuardIsHarmless | src/srvctcp.c:1056 | For blocks of two packets or more: such a packet can be reached from the start if and only if the congestion window may exceed the size of a block. |
| ForeignPackets.SteadyRunBreaks | src/srvctcp.c:1056-1115 | With one loss estimate throughout each pass of send_segs, a run reaches such a packet whenever BLOCK_SIZE + NUM_BLOCKS - 2 is below MAX_CWND, as it is for the sizes of src/util.h. |
| SmallWindows.TraceIsRun | src/srvctcp.c:1056 | When the window never exceeds a block, no step from the start is one the premise on the guard excludes: the block after the current one takes all the window a pass has left. |
| SmallWindows.DeliveryIsSafe | src/clictcp.c:747-777 | Then delivery is safe without any premise on the guard. |
| Windows.ForeignPacketBreaksReceiver | src/clictcp.c:594-642 | A packet made for that one block is stored by a receiver far enough ahead, which then claims a degree of freedom nobody sent, and no equation about the block holds. |
| Windows.SendKeepsFlight | src/srvctcp.c:1273-1275 | Sending overwrites neither block nor deadline of an outstanding packet. |
| Windows.CountIsExact | src/srvctcp.c:1035-1041 | Counting over the ring counts exactly the outstanding packets sent for the block whose deadline has not passed. |
| Windows.FlightIsExact | src/srvctcp.c:1552-1557 | In every run the congestion window stays between 2 and MAX_CWND and bounds what is outstanding; outstanding packets have slots of their own, and the ring records for what block and until when each was sent, so that the count of send_segs is exact. |
| PathHistory.SentCounts | src/srvctcp.c:1190 | In every run the counter of a slot is the number of packets of its block that have been sent, also after the slot has changed hands; of blocks past the ring none has been sent. |
| PathHistory.PassBegins | src/srvctcp.c:1012-1055 | In every run a pass begins at the current block with the window less what is outstanding, up to the newest block, and counts exactly the outstanding packets sent for the current block whose deadline has not passed. |
| PathHistory.VisitMeetsRequest | src/srvctcp.c:1056-1178 | In every run a visit sends the least number of packets with which, at the loss rate estimated, as many arrive as are requested, or what the window allows; later blocks are weighed against the packets counted for the block before. What is not queued is ordered, at the front for the current block. |
| PathHistory.LeavesWhenSent | src/srvctcp.c:1180-1191 | In every run the loop over the packets of a block ends exactly when all that were needed have been sent; its other condition never ends it. |
| PathHistory.AckMovesWindow | src/srvctcp.c:1422-1480 | Any ack: what it acknowledges is the maximum of its number and what was acknowledged; the window is the one decided on, clipped to 2 and MAX_CWND, unless the number was never sent; the current block is the maximum of the two. |
| PathHistory.TimeoutDropsWindow | src/srvctcp.c:930-941 | A timeout with packets outstanding ends with none outstanding and a window of INIT_SEGS; nothing else changes. |
| PathHistory.PathFollowsHistory | src/srvctcp.c:1422-1480 | In every run the window is the last decision, clipped, or INIT_SEGS before any and after a timeout; what is not outstanding is what acks and timeouts have settled, and nothing else. |
| PathHistory.EveryPacketCounted | src/srvctcp.c:1459-1478 | In every run each packet no longer outstanding has been counted exactly once, as received or lost by the ack that was news of it, or as given up by a timeout. |
| RingIndex.ModuloNear | src/fifo.c:11-18 | The helper modulo, with C's truncating remainder, is the position on the ring for every number less than a turn away, negative ones included. |
| QBuffer.Queue.constructor | src/qbuffer.c:20-37 | A queue starts empty. |
| QBuffer.Queue.PushBack | src/qbuffer.c:40-56 | The entry joins the end of the sequence, through wraps and up to a full ring. |
| QBuffer.Queue.PushFront | src/qbuffer.c:59-77 | The entry joins the front of the sequence. |
| QBuffer.Queue.Pop | src/qbuffer.c:80-98 | The first entry of the sequence is taken, and the others stay in order. |
| QBuffer.Queue.Free | src/qbuffer.c:101-115 | The queue is empty afterwards, wherever it stood on the ring. |
| Fifo.Stream.constructor | src/fifo.c:22-35 | A stream starts empty and not released. |
| Fifo.Stream.GetSpace | src/fifo.c:38-46 | The space reported is what the ring can take beside the bytes held. |
| Fifo.Stream.Append | src/fifo.c:59-74 | Bytes that fit are copied in behind those held, in one piece or two, and nothing else changes. |
| Fifo.Stream.Take | src/fifo.c:96-111 | The first bytes held are copied out, in one piece or two, and the others stay in order. |
| Fifo.Stream.Push | src/fifo.c:50-85 | The bytes ever pushed grow by a prefix of the buffer: all that fits, if there is room at once, and what does not go in leaves the ring full; at least one byte of a nonempty buffer goes in unless the stream is released; bytes popped followed by bytes held remain the bytes pushed. |
| Fifo.Stream.Pop | src/fifo.c:88-119 | The bytes returned are the next of those pushed: as many as asked for, or all there are, which leaves the ring empty; there are some unless the stream is released. |
| Fifo.Stream.Release | src/fifo.c:122-130 | Releasing the stream neither loses nor invents a byte. |
| Fifo.Stream.PushAll | src/clictcp.c:974-983 | The writers' push loop ends, and all of the buffer has been pushed unless the stream was released on the way. |
| SkbPool.Pool.Alloc | src/util.c:197-218 | The buffer handed out was not in use; it comes off the list of free buffers or is newly made, and the list stays acyclic and exactly the unused buffers. |
| SkbPool.Pool.Free | src/util.c:220-237 | A buffer in use goes to the front of the list; one that is free already changes nothing. |
| LossEstimator.ClosedFormIsSmoothing | src/srvctcp.c:1470-1473 | For every number of losses the update with a power is one step without loss followed by that many steps with loss. |
| LossEstimator.EstimatesBounded | src/srvctcp.c:1470-1473 | Both estimates stay at or above 0 and below 1 over all sequences of acks and timeouts. |
| LossEstimator.LongTermEstimate | src/srvctcp.c:1470-1473 | The long-term estimate is the smoothing, with its own memory and from 5 percent on, of all packets acks have told of, one by one. |
| LossEstimator.ShortTermEstimate | src/srvctcp.c:926 | The short-term estimate is the smoothing, with its own memory, of the packets acks have told of since the last timeout, from what the long-term estimate was then, or from 0. |

## Left out

- ForeignPackets.GuardIsHarmless: leaves out blocks of a single packet; whether the guard does harm then is not shown.
- ForeignPackets.SteadyRunBreaks: for windows above BLOCK_SIZE but not above BLOCK_SIZE + NUM_BLOCKS - 2 no run is given that keeps one loss estimate throughout each pass.
- CodedBlocks.CodedBlock.DataAt: cuts a length that exceeds the payload at its end, where the source reads on.
- CodedBlocks.CodedBlock.WriteReady: says nothing about the bytes of a stream that has been released; neither does any other method that pushes.
- CodedBlocks.CodedBlock.Flush: lets go of the buffers without returning them to the packet pool, which is modelled on its own.
- QBuffer.Queue.Free: does not model the freeing of the entries, whose loop in the source runs only while head is above tail.
- ServerSockets.ServerSocket.Accept: does not model the wait for a free slot; a call that would wait returns what it has taken so far, as it does when the wait times out.
- ServerSockets.ServerSocket.Code: takes the results of random() as an input, long enough for the redraw loop to end, and coding_job as one step, although the source releases one lock before it takes the next.
- ServerSockets.ServerSocket.Start: does not model the wait for new data that send_segs enters while nothing is requested; a pass that begins all the same sends nothing of the current block.
- ServerSockets.ServerSocket.HandleAck: takes the congestion window that the Vegas and AIMD rules decide on as an input; only the constraint on it is modelled.
- ServerSockets.ServerSocket.Visit: keeps blocks, queues and jobs as sequences; the queue of src/qbuffer.c, the packet pool and the payload buffers of the sender are modelled by classes of their own and not shared with it.
- Fifo.Stream.Push: stands for the other thread, while it waits, by a step that pops some bytes or releases the stream.
- Transport.Enabled: models one path; with several the order of coded packets that the elimination needs is lost.
- Framing.Data: cuts a length that exceeds the payload at its end, where the source reads on; no framed payload has such a length.
- Closing, SYN, FIN and the other flags, path states, idle counts and keep-alives.
- Sockets, polling, timers, clocks, retransmission timeouts, round-trip times and log files; a deadline is an input.
- Marshalling of headers into network byte order, apart from the length prefix of a payload.
- Wrap-around of 32-bit block and sequence numbers; block numbers wrap only inside the seed of the generator.
- Failure of malloc, which the source checks in some places and not in others.
- The branches for the field with 2 elements, since the field size is fixed at 256.
- Rounding in the loss estimator, which is modelled over the reals.
- The thread pool: running a job is a step that may happen at any time, in any order; how long its own queue gets is not modelled.
- The proxies, the SOCKS negotiation, configuration files, demo programs, base64, the erasure-code demonstration and MD5.

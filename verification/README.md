# Verified model of proc_box

proc_box runs a process within limits, among them a wall-clock timer, and is controlled
over AMQP. Its own code is small; what it stands on is protocol, scheduling and scoping
code that it carries along. This project models those parts in Dafny and proves what they
are for.

| Modules | What they model |
|---|---|
| `Wire`, `Fields`, `FieldLimits`, `ArrayEnds`, `FieldIO` | AMQP 0-9-1 strings, integers, nested tables and arrays (section 4.2.5.5), as functions over octets and as the readers and writers that run |
| `Methods`, `MethodLayouts`, `Flags`, `Properties`, `Frames`, `FrameIO` | the generated methods through a schema of their fields and octet by octet, the property mask, frames (sections 2.3.5, 4.2.3 and 4.2.6) |
| `Channel`, `Connection`, `ConnectionIO` | cutting messages into frames, the receive machine, telling channels apart |
| `TagHeap`, `Confirms` | the heap of delivery tags and publisher confirms |
| `Deliveries`, `Listeners` | the unbounded consumer buffer, consumers and notification listeners over their life |
| `Convey` | GoConvey's traversal that runs each leaf scope once |
| `MockClock` | the mock clock's event loop |
| `StackTags`, `Gls`, `GlsTraces` | goroutine-local storage on call-stack tags, and the frames it is read from |
| `Throttle` | the batch limiter and the throttled reader and writer |
| `Stopwatch` | the wall-clock timer |
| `ByteOrder`, `BinaryCodec`, `BinaryIO` | the type-directed binary codec |
| `Options`, `Sequences` | a value or none, laws of concatenation |

Code that changes things step by step is modelled by classes and loops, each proved
against a function; what the code promises is then proved about the function. Octets are
numbers from 0 to 255. A map of the original is visited in an unknown order, so that an
encoding belongs to a `Walk`, one order of visiting a value, and every statement holds for
all of them. Networks, clocks and the choices of `select` are parameters or left open.
Reads that fail still leave the reader somewhere, because `readArray` goes on from there.

Where the code and its comments disagree, the model follows the code:

- Confirms are said to arrive in order even if the broker acknowledges out of order
  (`channel.go:539-540`). The code notifies single confirms at once, in order of arrival:
  `Confirms.AcksOutOfOrder` is a run that shows it, and `Confirms.NotifiedInOrderIff` says
  exactly when the promise is kept.
- The limiter is said never to let a rate be exceeded (`throttle.go:66-69`). That fails
  without any error, because the rest of one batch, the next batch and those of the window
  can fall within one window: `Throttle.RateKeptIff` gives the exact condition. Failed
  throttled writes are not counted on top of that (`Throttle.FailuresKeepBoundIff`).
- `readArray` takes any EOF for the end of the array, also one that comes from a field cut
  short inside it, which `ArrayEnds.CutTableIsEmptyArray` shows; `ArrayEnds.DropsIff` says
  when that happens.
- The delivery tags of a channel match the broker's only if Confirm comes before every
  Publish (`Confirms.TagsMatchBrokerIff`).
- `binary.Read` of a signed integer without a pointer consumes input and stores nothing
  (`BinaryIO.PlainReadIff`).
- A negotiated frame size of exactly 8 would keep `sendOpen` in its loop for ever, and a
  smaller one makes it panic; `pick` yields 0 for no limit (`Channel.SendEndsIff`).
- Values set by SetValues are said to be available anywhere further down the stack
  (`context.go:58-61`). A trace shows 64 frames, for SetValues itself as well, so that a
  value set 64 frames above the manager's next SetValues is lost below that
  (`GlsTraces.LostBehindCut`). A value whose tag is in the reader's own trace is never
  lost, nor any within 64 frames, and otherwise `GlsTraces.EveryTracedRun` says exactly
  which are found.
- A ticker without a positive period keeps the mock clock in its loop for ever once it is
  due (`MockClock.MoveEndsIff`).

## Model

| member | source | states |
|---|---|---|
| `Connection.EndToEnd` | `Godeps/_workspace/src/github.com/streadway/amqp/connection.go:370-468` | Main result. Messages sent on any number of channels, cut into frames, interleaved in any order that keeps each channel's own, written as octets, read back, told apart and reassembled: each channel dispatches exactly what was sent on it, in order and intact, if and only if no channel sends anything after a channel.close; and every body frame on the wire is within the negotiated size |
| `Connection.DemuxAllTracks` | `Godeps/_workspace/src/github.com/streadway/amqp/connection.go:370-415` | While nothing comes on a closed channel, the connection never goes down and keeps for every channel exactly what that channel's own receive machine makes of its own frames |
| `Connection.EveryStream` | `Godeps/_workspace/src/github.com/streadway/amqp/connection.go:370-444` | For any stream at all, on channels open, closed or never known and with anything on channel 0: each channel dispatches exactly what its own frames make its own receive machine dispatch, until it has dispatched a channel.close or the connection goes down |
| `Connection.OpenIff` | `Godeps/_workspace/src/github.com/streadway/amqp/registry.go:22-34` | For any stream, a channel is known if and only if it was from the start and has dispatched no method of class 20 and id 40 |
| `Connection.NothingAfterClose` | `Godeps/_workspace/src/github.com/streadway/amqp/connection.go:409-444` | For any stream at all, a channel dispatches nothing after its channel.close and is no longer registered |
| `Connection.Pick` | `Godeps/_workspace/src/github.com/streadway/amqp/connection.go:683-700` | The agreed limit admits a size if and only if both ends' limits do, zero meaning no limit |
| `Connection.ClosesAnswered` | `Godeps/_workspace/src/github.com/streadway/amqp/connection.go:417-444` | For any stream: while the connection is up, every channel.close has been answered by exactly one close-ok on its channel, open or closed already, and none was sent otherwise |
| `Connection.CloseOkIff` | `Godeps/_workspace/src/github.com/streadway/amqp/connection.go:378-388` | For any stream: connection.close-ok is sent if and only if a method of class 10 and id 50 has come on channel 0 while the connection was up; then once, as the last reply, and the connection is down |
| `Connection.LastWordIff` | `Godeps/_workspace/src/github.com/streadway/amqp/connection.go:378-444` | For any stream: the connection asks to be closed, with 505 or 504, if and only if while it was up content came on channel 0, or a method other than channel.close and close-ok on a channel it does not know; that is its last reply |
| `Connection.HandedOverInOrder` | `Godeps/_workspace/src/github.com/streadway/amqp/connection.go:398-400` | For any stream: what is handed to waiting calls is exactly the other methods on channel 0 that came while the connection was up, in order |
| `ConnectionIO.Link.Demux` | `Godeps/_workspace/src/github.com/streadway/amqp/connection.go:370-444` | One frame changes registry, log, replies and state exactly as the connection machine does, and the result says whether the reader goes on, waits in closeWith or has panicked |
| `ConnectionIO.Link.CloseWith` | `Godeps/_workspace/src/github.com/streadway/amqp/connection.go:300-309` | The connection asks to be closed, and is down; the wait for the answer is the outcome of Demux |
| `Connection.WaitsIff` | `Godeps/_workspace/src/github.com/streadway/amqp/connection.go:300-309` | The reader comes to wait for an answer at exactly the frames that make the connection ask to be closed |
| `ConnectionIO.Link.Read` | `Godeps/_workspace/src/github.com/streadway/amqp/connection.go:449-468` | As far as closing goes, the reader gets to the first failing read, having handed on every frame before it, if and only if no frame makes the connection ask for a close or panics; otherwise it stays at that frame, and whatever frames are unread would change nothing. That there is a call to take each reply handed over is assumed |
| `ConnectionIO.Link.Remove` | `Godeps/_workspace/src/github.com/streadway/amqp/registry.go:29-34` | Only that channel leaves the registry |
| `Channel.SendEndsIff` | `Godeps/_workspace/src/github.com/streadway/amqp/channel.go:238-249` | The chunking loop ends, through the body or in a panic, if and only if the room for a body in a frame is not zero or there is no body |
| `Channel.Sender.SendOpen` | `Godeps/_workspace/src/github.com/streadway/amqp/channel.go:213-258` | Writes method, header and the body frames of the message, in order; it fails if and only if sending a frame did, with a proper initial part of them sent, and then stops; with a frame size below 8 a message with a body panics after its header |
| `Channel.FramesAre` | `Godeps/_workspace/src/github.com/streadway/amqp/channel.go:213-249` | The frames of a message: the method; a header with the class of the method, no weight and the length of the body; bodies of frame size less 8, the last one excepted, that together are the body |
| `Channel.Sender.SendBody` | `Godeps/_workspace/src/github.com/streadway/amqp/channel.go:238-249` | The chunking loop cuts the body into pieces of the given size, the last one possibly shorter, none empty; with a negative size it panics exactly if there is a body |
| `Channel.BodyFramesWithinFrameSize` | `Godeps/_workspace/src/github.com/streadway/amqp/channel.go:220-249` | On the wire no body frame exceeds the negotiated frame size |
| `Channel.Receiver.Frame` | `Godeps/_workspace/src/github.com/streadway/amqp/channel.go:310-399` | Whatever frames have come, state and dispatched messages are what the receive machine defines |
| `Channel.ContentDispatchedIff` | `Godeps/_workspace/src/github.com/streadway/amqp/channel.go:342-399` | For every sequence of method, header and body frames, well formed or not: a content message is dispatched at a frame if and only if the latest frames are a content method, its header, and bodies whose total first reaches the announced size there; its body is their concatenation |
| `Channel.PlainDispatchedIff` | `Godeps/_workspace/src/github.com/streadway/amqp/channel.go:315-325` | A method without content is dispatched exactly when it arrives, whatever it interrupts |
| `Channel.CrashedIff` | `Godeps/_workspace/src/github.com/streadway/amqp/channel.go:315-399` | Only a heartbeat on a channel makes its reader panic, and nothing is dispatched after that |
| `Channel.MessageDispatched` | `Godeps/_workspace/src/github.com/streadway/amqp/channel.go:213-399` | The frames of one message yield that message at the last of them and nothing earlier, from any state |
| `Channel.AllDispatched` | `Godeps/_workspace/src/github.com/streadway/amqp/channel.go:213-399` | Everything sent on a channel is dispatched there once, in order and intact |
| `Frames.FramesRoundTrip` | `Godeps/_workspace/src/github.com/streadway/amqp/read.go:45-90` | Any concatenation of written frames is read back as the same frames, ending in EOF at a frame boundary |
| `Frames.FrameRoundTrip` | `Godeps/_workspace/src/github.com/streadway/amqp/write.go:210-237` | A frame reads back as itself and takes exactly the octets written, although the size field is ignored for method and header frames |
| `Frames.ReadFrame` | `Godeps/_workspace/src/github.com/streadway/amqp/read.go:45-90` | Every frame read takes at least the eight octets of header and end, so that the reader loop ends |
| `Frames.FrameOctets` | `Godeps/_workspace/src/github.com/streadway/amqp/write.go:210-237` | The octets of a frame: 1, 2, 3 or 8 for its type, its channel, the size of the payload, the payload and 206 |
| `Frames.HeaderOctets` | `Godeps/_workspace/src/github.com/streadway/amqp/write.go:68-83` | The payload of a content header: class, weight and body size before the properties |
| `Frames.BodyFrameRead` | `Godeps/_workspace/src/github.com/streadway/amqp/read.go:76-89` | A frame that does not end in 206 is refused, after it has been read |
| `Frames.OtherTypesRefused` | `Godeps/_workspace/src/github.com/streadway/amqp/read.go:69-74` | A frame of another type is refused, its payload unread |
| `Frames.HeartbeatRead` | `Godeps/_workspace/src/github.com/streadway/amqp/read.go:434-444` | A heartbeat that announces a payload panics |
| `FrameIO.WriteFrame` | `Godeps/_workspace/src/github.com/streadway/amqp/write.go:18-237` | Writes one whole frame exactly when its tables can be encoded, and otherwise nothing |
| `FrameIO.ReadFrameInto` | `Godeps/_workspace/src/github.com/streadway/amqp/read.go:45-90` | The reader as it runs returns and consumes what ReadFrame defines, on every input |
| `FrameIO.ReadHeaderInto` | `Godeps/_workspace/src/github.com/streadway/amqp/read.go:324-419` | The same for content headers |
| `Methods.MethodRoundTrip` | `Godeps/_workspace/src/github.com/streadway/amqp/spec091.go:2741-3306` | For each of the 62 methods, read takes exactly the octets its write produced and restores the fields |
| `MethodLayouts.ConnectionStart` | `Godeps/_workspace/src/github.com/streadway/amqp/spec091.go:86-130` | The octets of connectionStart one by one, and what they read back as |
| `MethodLayouts.ConnectionStartOk` | `Godeps/_workspace/src/github.com/streadway/amqp/spec091.go:147-187` | The octets of connectionStartOk one by one, and what they read back as |
| `MethodLayouts.ConnectionSecure` | `Godeps/_workspace/src/github.com/streadway/amqp/spec091.go:201-217` | The octets of connectionSecure one by one, and what they read back as |
| `MethodLayouts.ConnectionSecureOk` | `Godeps/_workspace/src/github.com/streadway/amqp/spec091.go:231-247` | The octets of connectionSecureOk one by one, and what they read back as |
| `MethodLayouts.ConnectionTune` | `Godeps/_workspace/src/github.com/streadway/amqp/spec091.go:263-295` | The octets of connectionTune one by one, and what they read back as |
| `MethodLayouts.ConnectionTuneOk` | `Godeps/_workspace/src/github.com/streadway/amqp/spec091.go:311-343` | The octets of connectionTuneOk one by one, and what they read back as |
| `MethodLayouts.ConnectionOpen` | `Godeps/_workspace/src/github.com/streadway/amqp/spec091.go:359-396` | The octets of connectionOpen one by one, and what they read back as |
| `MethodLayouts.ConnectionOpenOk` | `Godeps/_workspace/src/github.com/streadway/amqp/spec091.go:410-426` | The octets of connectionOpenOk one by one, and what they read back as |
| `MethodLayouts.ConnectionClose` | `Godeps/_workspace/src/github.com/streadway/amqp/spec091.go:443-481` | The octets of connectionClose one by one, and what they read back as |
| `MethodLayouts.ConnectionCloseOk` | `Godeps/_workspace/src/github.com/streadway/amqp/spec091.go:494-502` | The octets of connectionCloseOk one by one, and what they read back as |
| `MethodLayouts.ConnectionBlocked` | `Godeps/_workspace/src/github.com/streadway/amqp/spec091.go:516-532` | The octets of connectionBlocked one by one, and what they read back as |
| `MethodLayouts.ConnectionUnblocked` | `Godeps/_workspace/src/github.com/streadway/amqp/spec091.go:545-553` | The octets of connectionUnblocked one by one, and what they read back as |
| `MethodLayouts.ChannelOpen` | `Godeps/_workspace/src/github.com/streadway/amqp/spec091.go:567-583` | The octets of channelOpen one by one, and what they read back as |
| `MethodLayouts.ChannelOpenOk` | `Godeps/_workspace/src/github.com/streadway/amqp/spec091.go:597-613` | The octets of channelOpenOk one by one, and what they read back as |
| `MethodLayouts.ChannelFlow` | `Godeps/_workspace/src/github.com/streadway/amqp/spec091.go:627-650` | The octets of channelFlow one by one, and what they read back as |
| `MethodLayouts.ChannelFlowOk` | `Godeps/_workspace/src/github.com/streadway/amqp/spec091.go:664-687` | The octets of channelFlowOk one by one, and what they read back as |
| `MethodLayouts.ChannelClose` | `Godeps/_workspace/src/github.com/streadway/amqp/spec091.go:704-742` | The octets of channelClose one by one, and what they read back as |
| `MethodLayouts.ChannelCloseOk` | `Godeps/_workspace/src/github.com/streadway/amqp/spec091.go:755-763` | The octets of channelCloseOk one by one, and what they read back as |
| `MethodLayouts.ExchangeDeclare` | `Godeps/_workspace/src/github.com/streadway/amqp/spec091.go:785-858` | The octets of exchangeDeclare one by one, and what they read back as |
| `MethodLayouts.ExchangeDeclareOk` | `Godeps/_workspace/src/github.com/streadway/amqp/spec091.go:871-879` | The octets of exchangeDeclareOk one by one, and what they read back as |
| `MethodLayouts.ExchangeDelete` | `Godeps/_workspace/src/github.com/streadway/amqp/spec091.go:896-940` | The octets of exchangeDelete one by one, and what they read back as |
| `MethodLayouts.ExchangeDeleteOk` | `Godeps/_workspace/src/github.com/streadway/amqp/spec091.go:953-961` | The octets of exchangeDeleteOk one by one, and what they read back as |
| `MethodLayouts.ExchangeBind` | `Godeps/_workspace/src/github.com/streadway/amqp/spec091.go:980-1039` | The octets of exchangeBind one by one, and what they read back as |
| `MethodLayouts.ExchangeBindOk` | `Godeps/_workspace/src/github.com/streadway/amqp/spec091.go:1052-1060` | The octets of exchangeBindOk one by one, and what they read back as |
| `MethodLayouts.ExchangeUnbind` | `Godeps/_workspace/src/github.com/streadway/amqp/spec091.go:1079-1138` | The octets of exchangeUnbind one by one, and what they read back as |
| `MethodLayouts.ExchangeUnbindOk` | `Godeps/_workspace/src/github.com/streadway/amqp/spec091.go:1151-1159` | The octets of exchangeUnbindOk one by one, and what they read back as |
| `MethodLayouts.QueueDeclare` | `Godeps/_workspace/src/github.com/streadway/amqp/spec091.go:1180-1247` | The octets of queueDeclare one by one, and what they read back as |
| `MethodLayouts.QueueDeclareOk` | `Godeps/_workspace/src/github.com/streadway/amqp/spec091.go:1263-1293` | The octets of queueDeclareOk one by one, and what they read back as |
| `MethodLayouts.QueueBind` | `Godeps/_workspace/src/github.com/streadway/amqp/spec091.go:1312-1371` | The octets of queueBind one by one, and what they read back as |
| `MethodLayouts.QueueBindOk` | `Godeps/_workspace/src/github.com/streadway/amqp/spec091.go:1384-1392` | The octets of queueBindOk one by one, and what they read back as |
| `MethodLayouts.QueueUnbind` | `Godeps/_workspace/src/github.com/streadway/amqp/spec091.go:1410-1454` | The octets of queueUnbind one by one, and what they read back as |
| `MethodLayouts.QueueUnbindOk` | `Godeps/_workspace/src/github.com/streadway/amqp/spec091.go:1467-1475` | The octets of queueUnbindOk one by one, and what they read back as |
| `MethodLayouts.QueuePurge` | `Godeps/_workspace/src/github.com/streadway/amqp/spec091.go:1491-1530` | The octets of queuePurge one by one, and what they read back as |
| `MethodLayouts.QueuePurgeOk` | `Godeps/_workspace/src/github.com/streadway/amqp/spec091.go:1544-1560` | The octets of queuePurgeOk one by one, and what they read back as |
| `MethodLayouts.QueueDelete` | `Godeps/_workspace/src/github.com/streadway/amqp/spec091.go:1578-1627` | The octets of queueDelete one by one, and what they read back as |
| `MethodLayouts.QueueDeleteOk` | `Godeps/_workspace/src/github.com/streadway/amqp/spec091.go:1641-1657` | The octets of queueDeleteOk one by one, and what they read back as |
| `MethodLayouts.BasicQos` | `Godeps/_workspace/src/github.com/streadway/amqp/spec091.go:1673-1712` | The octets of basicQos one by one, and what they read back as |
| `MethodLayouts.BasicQosOk` | `Godeps/_workspace/src/github.com/streadway/amqp/spec091.go:1725-1733` | The octets of basicQosOk one by one, and what they read back as |
| `MethodLayouts.BasicConsume` | `Godeps/_workspace/src/github.com/streadway/amqp/spec091.go:1754-1822` | The octets of basicConsume one by one, and what they read back as |
| `MethodLayouts.BasicConsumeOk` | `Godeps/_workspace/src/github.com/streadway/amqp/spec091.go:1836-1852` | The octets of basicConsumeOk one by one, and what they read back as |
| `MethodLayouts.BasicCancel` | `Godeps/_workspace/src/github.com/streadway/amqp/spec091.go:1867-1898` | The octets of basicCancel one by one, and what they read back as |
| `MethodLayouts.BasicCancelOk` | `Godeps/_workspace/src/github.com/streadway/amqp/spec091.go:1912-1928` | The octets of basicCancelOk one by one, and what they read back as |
| `MethodLayouts.BasicPublish` | `Godeps/_workspace/src/github.com/streadway/amqp/spec091.go:1956-2006` | The octets of basicPublish one by one, and what they read back as |
| `MethodLayouts.BasicReturn` | `Godeps/_workspace/src/github.com/streadway/amqp/spec091.go:2033-2069` | The octets of basicReturn one by one, and what they read back as |
| `MethodLayouts.BasicDeliver` | `Godeps/_workspace/src/github.com/streadway/amqp/spec091.go:2097-2150` | The octets of basicDeliver one by one, and what they read back as |
| `MethodLayouts.BasicGet` | `Godeps/_workspace/src/github.com/streadway/amqp/spec091.go:2166-2205` | The octets of basicGet one by one, and what they read back as |
| `MethodLayouts.BasicGetOk` | `Godeps/_workspace/src/github.com/streadway/amqp/spec091.go:2233-2286` | The octets of basicGetOk one by one, and what they read back as |
| `MethodLayouts.BasicGetEmpty` | `Godeps/_workspace/src/github.com/streadway/amqp/spec091.go:2300-2316` | The octets of basicGetEmpty one by one, and what they read back as |
| `MethodLayouts.BasicAck` | `Godeps/_workspace/src/github.com/streadway/amqp/spec091.go:2331-2362` | The octets of basicAck one by one, and what they read back as |
| `MethodLayouts.BasicReject` | `Godeps/_workspace/src/github.com/streadway/amqp/spec091.go:2377-2408` | The octets of basicReject one by one, and what they read back as |
| `MethodLayouts.BasicRecoverAsync` | `Godeps/_workspace/src/github.com/streadway/amqp/spec091.go:2422-2445` | The octets of basicRecoverAsync one by one, and what they read back as |
| `MethodLayouts.BasicRecover` | `Godeps/_workspace/src/github.com/streadway/amqp/spec091.go:2459-2482` | The octets of basicRecover one by one, and what they read back as |
| `MethodLayouts.BasicRecoverOk` | `Godeps/_workspace/src/github.com/streadway/amqp/spec091.go:2495-2503` | The octets of basicRecoverOk one by one, and what they read back as |
| `MethodLayouts.BasicNack` | `Godeps/_workspace/src/github.com/streadway/amqp/spec091.go:2519-2555` | The octets of basicNack one by one, and what they read back as |
| `MethodLayouts.TxSelect` | `Godeps/_workspace/src/github.com/streadway/amqp/spec091.go:2568-2576` | The octets of txSelect one by one, and what they read back as |
| `MethodLayouts.TxSelectOk` | `Godeps/_workspace/src/github.com/streadway/amqp/spec091.go:2589-2597` | The octets of txSelectOk one by one, and what they read back as |
| `MethodLayouts.TxCommit` | `Godeps/_workspace/src/github.com/streadway/amqp/spec091.go:2610-2618` | The octets of txCommit one by one, and what they read back as |
| `MethodLayouts.TxCommitOk` | `Godeps/_workspace/src/github.com/streadway/amqp/spec091.go:2631-2639` | The octets of txCommitOk one by one, and what they read back as |
| `MethodLayouts.TxRollback` | `Godeps/_workspace/src/github.com/streadway/amqp/spec091.go:2652-2660` | The octets of txRollback one by one, and what they read back as |
| `MethodLayouts.TxRollbackOk` | `Godeps/_workspace/src/github.com/streadway/amqp/spec091.go:2673-2681` | The octets of txRollbackOk one by one, and what they read back as |
| `MethodLayouts.ConfirmSelect` | `Godeps/_workspace/src/github.com/streadway/amqp/spec091.go:2695-2718` | The octets of confirmSelect one by one, and what they read back as |
| `MethodLayouts.ConfirmSelectOk` | `Godeps/_workspace/src/github.com/streadway/amqp/spec091.go:2731-2739` | The octets of confirmSelectOk one by one, and what they read back as |
| `MethodLayouts.NoOthers` | `Godeps/_workspace/src/github.com/streadway/amqp/spec091.go:2741-3306` | With class and method ids other than those of the 62 methods a frame is refused right after them |
| `Methods.ArgsRoundTrip` | `Godeps/_workspace/src/github.com/streadway/amqp/spec091.go:86-130` | Fields in schema order survive, one after the other |
| `Methods.UnpackPack` | `Godeps/_workspace/src/github.com/streadway/amqp/spec091.go:1955-2010` | Up to eight bits packed into an octet come back in their places |
| `FrameIO.PackBits` | `Godeps/_workspace/src/github.com/streadway/amqp/spec091.go:1955-1985` | The octet collected bit by bit is the function Pack of the fields, which Methods.UnpackPack inverts |
| `FrameIO.UnpackBits` | `Godeps/_workspace/src/github.com/streadway/amqp/spec091.go:1988-2010` | The bits tested one by one are the unpacking of the octet |
| `FrameIO.WriteArgs` | `Godeps/_workspace/src/github.com/streadway/amqp/spec091.go:86-107` | A write appends its fields in order, and fails exactly when a table cannot be encoded |
| `FrameIO.MethodPayload` | `Godeps/_workspace/src/github.com/streadway/amqp/write.go:30-52` | The payload is class, method and fields; it exists exactly when every table can be encoded |
| `FrameIO.ReadMethodInto` | `Godeps/_workspace/src/github.com/streadway/amqp/spec091.go:2741-3306` | The dispatching parser as it runs does what ReadMethod defines, unknown methods included |
| `Flags.MaskTells` | `Godeps/_workspace/src/github.com/streadway/amqp/types.go:84-99` | The property flags are disjoint bits: a mask announces exactly the set it was built from |
| `Properties.MaskOctets` | `Godeps/_workspace/src/github.com/streadway/amqp/write.go:87-127` | Which bit of the mask stands for which property, from 0x8000 for the content type down to 0x0008 for the application, with none else set |
| `Properties.ValueOctets` | `Godeps/_workspace/src/github.com/streadway/amqp/write.go:128-200` | After the mask come the properties that are present, in that order |
| `FrameIO.BuildMask` | `Godeps/_workspace/src/github.com/streadway/amqp/write.go:87-127` | The first pass sets the flags of exactly the properties that are present |
| `FrameIO.WriteProperties` | `Godeps/_workspace/src/github.com/streadway/amqp/write.go:84-199` | Both passes together append mask and values of the present properties in order; they succeed exactly when the headers table can be encoded |
| `FrameIO.ReadPropertiesInto` | `Godeps/_workspace/src/github.com/streadway/amqp/read.go:341-418` | The fourteen tests as they run do what ReadProperties defines, on every input |
| `Properties.PropertiesRoundTrip` | `Godeps/_workspace/src/github.com/streadway/amqp/write.go:68-200` | Whatever subset is set, each property comes back in its own field, the others as defaults, taking exactly the octets written |
| `Properties.PropertiesRoundTripIffFit` | `Godeps/_workspace/src/github.com/streadway/amqp/read.go:320-419` | They survive if and only if no string exceeds 255 octets, the headers table fits its length fields and reserved1 is empty |
| `Fields.ReadField` | `Godeps/_workspace/src/github.com/streadway/amqp/read.go:166-254` | Every success consumes at least one octet and no outcome gives octets back, so that the mutually recursive decoders end on every finite input |
| `Fields.RoundTrip` | `Godeps/_workspace/src/github.com/streadway/amqp/write.go:287-396` | Every nested value, written with its tables visited in any order, reads back as itself, takes exactly the octets written and leaves what follows |
| `Fields.ArrayRoundTrip` | `Godeps/_workspace/src/github.com/streadway/amqp/read.go:294-317` | The same for arrays, through the length-limited reader and the loop that ends at EOF |
| `Fields.TableRoundTrip` | `Godeps/_workspace/src/github.com/streadway/amqp/write.go:398-411` | The same for tables, in every iteration order of the map |
| `Fields.NumberFieldOctets` | `Godeps/_workspace/src/github.com/streadway/amqp/write.go:287-396` | The octets of integers, floats and times: the type letter and the value, in two's complement |
| `Fields.OtherFieldOctets` | `Godeps/_workspace/src/github.com/streadway/amqp/write.go:287-396` | The octets of booleans, octets, decimals, strings, byte arrays and nil |
| `Fields.NestedOctets` | `Godeps/_workspace/src/github.com/streadway/amqp/write.go:350-411` | The octets of arrays, tables and their entries |
| `Fields.UnknownLetter` | `Godeps/_workspace/src/github.com/streadway/amqp/read.go:246-248` | No other letter is a field, and nothing after it is read |
| `Fields.ValidIff` | `Godeps/_workspace/src/github.com/streadway/amqp/types.go:181-204` | A value is accepted if and only if nothing of another type is met in it |
| `ArrayEnds.DropsIff` | `Godeps/_workspace/src/github.com/streadway/amqp/read.go:302-316` | The array loop succeeds although octets were dropped if and only if those where it stopped end just where a read inside a field would begin: after a type letter, a decimal's scale, a positive length, or an entry's key or its length |
| `ArrayEnds.EOFIff` | `Godeps/_workspace/src/github.com/streadway/amqp/read.go:166-292` | The reader of a field reports EOF on exactly the octets that end where one of its reads would begin, nested tables included |
| `ArrayEnds.ReadArrayWholeIff` | `Godeps/_workspace/src/github.com/streadway/amqp/read.go:294-317` | What is returned is the whole array as announced if and only if the announced octets are there and the loop stopped at their end |
| `ArrayEnds.WholeArrayRead` | `Godeps/_workspace/src/github.com/streadway/amqp/read.go:294-317` | A whole array is returned as it is, and exactly its octets are consumed |
| `ArrayEnds.CutTableIsEmptyArray` | `Godeps/_workspace/src/github.com/streadway/amqp/read.go:306-313` | An input on which the above happens: a table cut off after a key passes for an empty array |
| `FieldLimits.RoundTripIffFits` | `Godeps/_workspace/src/github.com/streadway/amqp/write.go:239-411` | A value survives if and only if its keys have at most 255 octets, its strings and encoded parts are below 2^32 and its byte arrays below 2^31 |
| `FieldLimits.ReadFieldFits` | `Godeps/_workspace/src/github.com/streadway/amqp/read.go:166-254` | Whatever octets come in, what is read fits those limits and is no longer when written than what was read |
| `FieldLimits.SameSize` | `Godeps/_workspace/src/github.com/streadway/amqp/write.go:398-411` | The iteration order of maps changes neither the encoded length nor whether a value fits |
| `FieldLimits.SomeVisit` | `Godeps/_workspace/src/github.com/streadway/amqp/write.go:398-411` | Every value has an encoding |
| `FieldIO.Buffer.Field` | `Godeps/_workspace/src/github.com/streadway/amqp/write.go:287-396` | writeField succeeds on exactly the values Validate accepts (types.go:181-208), and appends an encoding of the value |
| `FieldIO.Buffer.Table` | `Godeps/_workspace/src/github.com/streadway/amqp/write.go:398-411` | The same for writeTable, whatever order the keys come up in |
| `FieldIO.Reader.Field` | `Godeps/_workspace/src/github.com/streadway/amqp/read.go:166-254` | The decoder as it runs returns and consumes what ReadField defines, errors included |
| `FieldIO.Reader.Array` | `Godeps/_workspace/src/github.com/streadway/amqp/read.go:294-317` | The same for the array loop |
| `FieldIO.Reader.Table` | `Godeps/_workspace/src/github.com/streadway/amqp/read.go:264-292` | The same for the loop that fills the table; a repeated key overwrites |
| `Wire.ShortstrRoundTrip` | `Godeps/_workspace/src/github.com/streadway/amqp/write.go:239-253` | A short string comes back cut to its length modulo 256, hence unchanged if and only if it has at most 255 octets |
| `Wire.LongstrRoundTrip` | `Godeps/_workspace/src/github.com/streadway/amqp/write.go:255-269` | A long string comes back unchanged if and only if it is shorter than 2^32 |
| `Wire.BigEndianRoundTrip` | `Godeps/_workspace/src/github.com/streadway/amqp/write.go:306-319` | Integers in network byte order are restored |
| `Wire.NumberOctets` | `Godeps/_workspace/src/github.com/streadway/amqp/write.go:239-275` | What one, two and four octets stand for, most significant first |
| `Wire.NumberWritten` | `Godeps/_workspace/src/github.com/streadway/amqp/write.go:239-275` | A number is written as the octets that stand for it |
| `Wire.StringOctets` | `Godeps/_workspace/src/github.com/streadway/amqp/write.go:239-275` | A string is its length in one octet or four, then itself |
| `TagHeap.TagSet.Push` | `Godeps/_workspace/src/github.com/streadway/amqp/types.go:211-221` | The heap order is kept, exactly the tag is added |
| `TagHeap.TagSet.Pop` | `Godeps/_workspace/src/github.com/streadway/amqp/types.go:211-221` | The least tag is returned, exactly that one is removed, the heap order is kept |
| `Confirms.RunAccounted` | `Godeps/_workspace/src/github.com/streadway/amqp/channel.go:568-615` | Over every run against a broker that confirms outstanding tags only: each published tag is outstanding or was notified once, and nothing else was |
| `Confirms.NotifiedAtMostOnce` | `Godeps/_workspace/src/github.com/streadway/amqp/channel.go:537-537` | No tag is notified twice, as ack or as nack, and the outstanding ones are the published ones not notified |
| `Confirms.ConfirmNotifies` | `Godeps/_workspace/src/github.com/streadway/amqp/channel.go:568-615` | A single confirm notifies and removes its tag only; a multiple one, in increasing order, exactly the outstanding tags up to it |
| `Confirms.NotifiedInOrderIff` | `Godeps/_workspace/src/github.com/streadway/amqp/channel.go:537-615` | Over every legal run, what is notified comes in the order of publishing if and only if every single confirm names the least tag outstanding at that moment |
| `Confirms.AckedInOrderIff` | `Godeps/_workspace/src/github.com/streadway/amqp/channel.go:537-593` | The same of the acks alone, once everything published has been acked: acked is then the published tags in order, or it is not, by the same condition |
| `Confirms.AcksOutOfOrder` | `Godeps/_workspace/src/github.com/streadway/amqp/channel.go:539-593` | A run in which two acks are notified in the wrong order |
| `Confirms.TagsMatchBrokerIff` | `Godeps/_workspace/src/github.com/streadway/amqp/channel.go:1360-1364` | The channel's tags agree with the broker's numbering if and only if nothing was published before Confirm |
| `Confirms.Confirming.EnterConfirmMode` | `Godeps/_workspace/src/github.com/streadway/amqp/channel.go:1509-1524` | Outstanding is empty; the counter goes on from where it was |
| `Confirms.Confirming.Publish` | `Godeps/_workspace/src/github.com/streadway/amqp/channel.go:1335-1366` | A publish that went out is counted and becomes outstanding; a failed one changes nothing |
| `Confirms.Confirming.ConfirmOne` | `Godeps/_workspace/src/github.com/streadway/amqp/channel.go:568-593` | The pop-and-push-back loop removes and notifies only its tag; it panics exactly when the tag is not outstanding, having notified nothing and lost the heap |
| `Confirms.Confirming.ConfirmMultiple` | `Godeps/_workspace/src/github.com/streadway/amqp/channel.go:597-615` | The pop loop notifies exactly the outstanding tags up to the tag, ascending; it panics exactly when the tag is not outstanding, having notified all that were |
| `Deliveries.NothingLostOrReordered` | `Godeps/_workspace/src/github.com/streadway/amqp/consumers.go:34-62` | In every interleaving of arrivals, sends and close: delivered, held and queued together are what was received, in order; out is closed only when in is and everything was delivered |
| `Deliveries.DrainsAfterClose` | `Godeps/_workspace/src/github.com/streadway/amqp/consumers.go:46-58` | Once in is closed each send shortens the queue, every step brings the end nearer, and until the end a step is possible |
| `Deliveries.CompleteRunDeliversAll` | `Godeps/_workspace/src/github.com/streadway/amqp/consumers.go:34-62` | Every run carried on after the close is bounded and ends with everything delivered and out closed |
| `Deliveries.Unbounded` | `Godeps/_workspace/src/github.com/streadway/amqp/consumers.go:38-52` | Until the close any number of arrivals can be received without a send to the consumer |
| `Deliveries.BufferDeliveries` | `Godeps/_workspace/src/github.com/streadway/amqp/consumers.go:34-62` | The nested loops deliver exactly the input, in order, whatever select chooses |
| `Listeners.Consumers.Add` | `Godeps/_workspace/src/github.com/streadway/amqp/consumers.go:65-77` | A new open channel replaces the old one, which is closed |
| `Listeners.Consumers.Close` | `Godeps/_workspace/src/github.com/streadway/amqp/consumers.go:79-91` | Closes and removes that one channel, if there |
| `Listeners.Consumers.CloseAll` | `Godeps/_workspace/src/github.com/streadway/amqp/consumers.go:93-102` | Closes every channel in the map, each once, and empties the map |
| `Listeners.Consumers.Send` | `Godeps/_workspace/src/github.com/streadway/amqp/consumers.go:108-118` | Sends only to an open channel, and reports whether there is one |
| `Listeners.Registrations.Shutdown` | `Godeps/_workspace/src/github.com/streadway/amqp/channel.go:96-155` | An error goes to every close listener before anything is closed; sending ends, all consumers are closed, and every registered listener is closed, each once, even one that serves as ack and nack; it panics exactly when a close, flow, return or cancel listener was registered twice |
| `Listeners.Registrations.CloseAllListeners` | `Godeps/_workspace/src/github.com/streadway/amqp/channel.go:117-149` | The closing loops together close exactly the registered listeners, or panic on a duplicate |
| `Listeners.Registrations.CloseEach` | `Godeps/_workspace/src/github.com/streadway/amqp/channel.go:117-131` | Closes each of a list; panics exactly on a duplicate |
| `Listeners.Registrations.CloseUnseen` | `Godeps/_workspace/src/github.com/streadway/amqp/channel.go:135-149` | Closes each channel not seen yet, so that shared ones are closed once |
| `Listeners.Registrations.NotifyClose` | `Godeps/_workspace/src/github.com/streadway/amqp/channel.go:427-438` | After the shutdown a listener is closed on arrival; before, what a shutdown will close grows by exactly it |
| `Listeners.Registrations.NotifyConfirm` | `Godeps/_workspace/src/github.com/streadway/amqp/channel.go:551-564` | The same for a pair; after the shutdown one channel given as both panics |
| `Convey.Suite.RootConvey` | `Godeps/_workspace/src/github.com/smartystreets/goconvey/convey/context.go:87-114` | For every finite tree of scopes with distinct sibling names the root loop ends, and its passes are the paths to the leaves, in source order, one each |
| `Convey.Suite.ConveyInner` | `Godeps/_workspace/src/github.com/smartystreets/goconvey/convey/context.go:212-263` | One pass runs exactly the path to the next leaf, marks what is complete and leaves every other context alone |
| `Convey.Suite.AllComplete` | `Godeps/_workspace/src/github.com/smartystreets/goconvey/convey/context.go:237-244` | A scope is complete when no child of it is incomplete, in whatever order they come up |
| `Convey.Suite.Convey` | `Godeps/_workspace/src/github.com/smartystreets/goconvey/convey/context.go:126-166` | A nested call enters only if its scope is incomplete and no leaf has run in this pass |
| `Convey.OnePassPerLeaf` | `Godeps/_workspace/src/github.com/smartystreets/goconvey/convey/context.go:109-112` | There are as many passes as leaves |
| `Convey.RunsOncePerLeaf` | `Godeps/_workspace/src/github.com/smartystreets/goconvey/convey/context.go:161-165` | Each body runs once for every leaf below it |
| `MockClock.TickerInLog` | `Godeps/_workspace/src/github.com/benbjohnson/clock/clock.go:70-138` | In every state that any sequence of Timer, Ticker, Remove, Set and Add leads to: a ticker made at time c with period d and not stopped has fired exactly floor((now - c) / d) times in the log, the k-th time at c + k d, if the clock only moved forward since; a stopped one as often as when it was stopped |
| `MockClock.OneShotInLog` | `Godeps/_workspace/src/github.com/benbjohnson/clock/clock.go:70-138` | In every such state a one-shot timer is in the log once, at its time, if the clock was moved that far before it was stopped, and otherwise not at all |
| `MockClock.RecordedMove` | `Godeps/_workspace/src/github.com/benbjohnson/clock/clock.go:92-107` | One move adds to each timer's part of the log, and leaves of it, exactly what it would do alone, whatever other timers there are |
| `MockClock.MoveEndsIff` | `Godeps/_workspace/src/github.com/benbjohnson/clock/clock.go:70-107` | The loops end, whatever the order of timers due at one time, if and only if no ticker without a positive period is due by then |
| `MockClock.Mock.Set` | `Godeps/_workspace/src/github.com/benbjohnson/clock/clock.go:92-107` | Fires in time order; each timer fires at exactly the times it should; what remains is due after the target; every timer's record is carried on; while the clock was only moved forward and no delay was negative, the whole log stays in time order |
| `MockClock.SteadyMove` | `Godeps/_workspace/src/github.com/benbjohnson/clock/clock.go:70-151` | A move forward adds to the log only what is no earlier than all before it |
| `MockClock.Mock.Add` | `Godeps/_workspace/src/github.com/benbjohnson/clock/clock.go:70-88` | The same for a relative move |
| `MockClock.Mock.RunNextTimer` | `Godeps/_workspace/src/github.com/benbjohnson/clock/clock.go:112-138` | Runs an earliest due timer and moves the clock to its time, or finds none due |
| `MockClock.Mock.Timer` | `Godeps/_workspace/src/github.com/benbjohnson/clock/clock.go:190-202` | A one-shot timer is added, due after d |
| `MockClock.Mock.Ticker` | `Godeps/_workspace/src/github.com/benbjohnson/clock/clock.go:174-187` | A ticker is added, first due after d, whatever its period |
| `MockClock.Mock.Remove` | `Godeps/_workspace/src/github.com/benbjohnson/clock/clock.go:204-216` | Exactly that timer is taken out |
| `MockClock.TickKeepsOutcome` | `Godeps/_workspace/src/github.com/benbjohnson/clock/clock.go:251-293` | Firing the earliest timer changes nothing about the final timers and uses up exactly one of the firings due: the termination measure of the loop |
| `MockClock.FiresOverIsFires` | `Godeps/_workspace/src/github.com/benbjohnson/clock/clock.go:70-107` | For one timer, moving forward in any number of stages fires what one move would; the log follows by Mock.Valid |
| `Gls.EveryRun` | `Godeps/_workspace/src/github.com/jtolds/gls/context.go:65-116` | Over every interleaving on any number of goroutines and managers, whatever part of the tags each trace showed: GetValue returns what the innermost call reached from the reader has set; held tags are distinct; held plus released ids are exactly 0 .. max_id - 1 |
| `Gls.EveryRunIff` | `Godeps/_workspace/src/github.com/jtolds/gls/context.go:65-116` | Over every such run, all keys are found as by the full outward search if and only if every key set beyond the first broken link, from the reader outwards along the manager's own calls, was also set before it |
| `Gls.EveryRunSeen` | `Godeps/_workspace/src/github.com/jtolds/gls/context.go:65-116` | At any depth: after a run in which every SetValues saw the innermost enclosing call of its manager, or there was none, GetValue agrees with the outward search on all keys if and only if the reader sees it too, or there is none |
| `Gls.LinkedIff` | `Godeps/_workspace/src/github.com/jtolds/gls/context.go:65-116` | No call is out of reach if and only if the reader and each of the manager's calls saw the next one outwards |
| `Gls.GetValueIsOutwardIff` | `Godeps/_workspace/src/github.com/jtolds/gls/context.go:104-116` | For one key: the outward search is met if and only if the key is not set beyond the first broken link or also before it |
| `Gls.GetValueIsOutward` | `Godeps/_workspace/src/github.com/jtolds/gls/context.go:104-116` | While every link holds, looking only at the innermost tag of the manager agrees with dynamic scoping |
| `GlsTraces.EveryTracedRun` | `Godeps/_workspace/src/github.com/jtolds/gls/context.go:23-118` | Over every run frame by frame, on any number of goroutines: every value set by a call whose tag is in the reader's own trace is found as by the outward search; on a stack of at most 64 frames every value at all; and on any stack a key is found so if and only if it is not set beyond the first broken link or also before it |
| `GlsTraces.SeenFurtherIn` | `Godeps/_workspace/src/github.com/jtolds/gls/context.go:23-26` | A trace taken further in shows no more tags than lie in between and those that the trace taken further out shows |
| `GlsTraces.TracedNested` | `Godeps/_workspace/src/github.com/jtolds/gls/context.go:65-98` | The traces taken on one stack, by the reader and by every SetValues in progress, are nested |
| `GlsTraces.SeenIsReached` | `Godeps/_workspace/src/github.com/jtolds/gls/context.go:71-87` | With nested traces, every call of the manager that the reader's trace shows is among those whose values reach the reader |
| `GlsTraces.RunConsistent` | `Godeps/_workspace/src/github.com/jtolds/gls/context.go:65-98` | Over every run the frames of each goroutine are those of its calls in progress, with their markers, and each call saw what the trace taken of the frames below it shows |
| `GlsTraces.LostBehindCut` | `Godeps/_workspace/src/github.com/jtolds/gls/context.go:65-116` | A SetValues 64 frames or more below the last one of its manager loses what that set: a reader right below, whose trace shows the inner call alone, finds exactly what this has set, and no trace further in shows more |
| `Gls.TraceShows` | `Godeps/_workspace/src/github.com/jtolds/gls/context.go:23-26` | From the stack trace as taken, with any other frames between the markers, the search is that through as many of the innermost calls as have all their markers within the 64 frames |
| `Gls.TraceLookupIsOutward` | `Godeps/_workspace/src/github.com/jtolds/gls/context.go:104-116` | From the trace as taken, the dynamic value is found while every link holds |
| `Gls.CutTraceIff` | `Godeps/_workspace/src/github.com/jtolds/gls/context.go:9-26` | Where no SetValues was cut off from its manager's calls, a reader that sees n tags finds everything if and only if it sees one of its manager's own or there is none |
| `Gls.CutFramesIff` | `Godeps/_workspace/src/github.com/jtolds/gls/context.go:9-26` | From the innermost 64 frames, a manager finds every value it should if and only if every key set beyond the first broken link was also set before it; the cuts that earlier SetValues suffered are part of the links |
| `Gls.GoPreservesValuesIff` | `Godeps/_workspace/src/github.com/jtolds/gls/context.go:136-150` | In a goroutine started by Go, whatever all others do while it sets what was captured, every registered manager finds all values in force at the call if and only if the reader sees the manager's call or it had nothing |
| `Gls.ContextManager.SetValues` | `Godeps/_workspace/src/github.com/jtolds/gls/context.go:65-90` | Files the merged copy under a new tag; with nothing to set changes nothing |
| `Gls.ContextManager.Unset` | `Godeps/_workspace/src/github.com/jtolds/gls/context.go:91-96` | Removes the entry and releases the tag |
| `Gls.ContextManager.GetValues` | `Godeps/_workspace/src/github.com/jtolds/gls/context.go:118-128` | Finds the values under the first tag within the 64 frames that is filed by this manager |
| `Gls.ContextManager.GetValue` | `Godeps/_workspace/src/github.com/jtolds/gls/context.go:104-116` | Looks the key up in those values only |
| `Gls.IdPool.Acquire` | `Godeps/_workspace/src/github.com/jtolds/gls/id_pool.go:17-28` | The last released id, or the next new one |
| `Gls.IdPool.Release` | `Godeps/_workspace/src/github.com/jtolds/gls/id_pool.go:30-34` | The id becomes available again |
| `Gls.AcquireKeeps` | `Godeps/_workspace/src/github.com/jtolds/gls/id_pool.go:17-28` | An acquired id is not held by anyone, and held plus released stay 0 .. max_id - 1 |
| `Gls.AcquireTakesLast` | `Godeps/_workspace/src/github.com/jtolds/gls/id_pool.go:17-34` | The id released last is acquired next; with none released the next new one is |
| `StackTags.ReadStackTags` | `Godeps/_workspace/src/github.com/jtolds/gls/stack_tags.go:76-93` | The loop over the trace returns what the recursive reading defines, with 64-bit wrap-around |
| `StackTags.TagsReadBack` | `Godeps/_workspace/src/github.com/jtolds/gls/stack_tags.go:14-93` | For any nesting of tagged calls with any frames between, the tags come back innermost first |
| `StackTags.DigitsAre` | `Godeps/_workspace/src/github.com/jtolds/gls/stack_tags.go:21-74` | The markers of a tag are its digits in base 16, the least significant called first and no zeros in front |
| `StackTags.CutStackTags` | `Godeps/_workspace/src/github.com/jtolds/gls/stack_tags.go:76-93` | A cut trace gives as many of the innermost tags as have their whole markers in it |
| `StackTags.CutStackGivesPrefix` | `Godeps/_workspace/src/github.com/jtolds/gls/stack_tags.go:76-93` | A trace cut at any depth gives a prefix |
| `Throttle.RateKeptIff` | `Godeps/_workspace/src/github.com/aybabtme/iocontrol/throttle.go:66-69` | The promise never to exceed the rate: from an idle limiter, over all runs at a fixed rate without failures, every second keeps within perSec if and only if maxPerBatch * (1s / resolution + 2) <= perSec |
| `Throttle.WholeSecondsExceed` | `Godeps/_workspace/src/github.com/aybabtme/iocontrol/throttle.go:66-69` | With a batch a second the promise fails for every positive rate |
| `Throttle.KeepsIff` | `Godeps/_workspace/src/github.com/aybabtme/iocontrol/throttle.go:41-102` | Windows of any length, with at most so many failed throttled writes: a limit is kept in all runs if and only if it has room for two batches and one per failure besides those of the window, so that the bound is attained |
| `Throttle.FailuresKeepBoundIff` | `Godeps/_workspace/src/github.com/aybabtme/iocontrol/throttle.go:95-99` | The bound of two batches more than the window's holds of all runs if and only if throttled writes do not fail, or nothing may pass at all |
| `Throttle.RateHolds` | `Godeps/_workspace/src/github.com/aybabtme/iocontrol/limiter.go:23-59` | With a fixed rate and an error-free stream, any window of time W sees at most maxPerBatch * (W / resolution + 2) bytes, and maxPerBatch * (1s / resolution) <= perSec |
| `Throttle.WindowBound` | `Godeps/_workspace/src/github.com/aybabtme/iocontrol/throttle.go:41-102` | The bound for every run, with rates changing and calls failing: exceeded at most by what failed throttled writes passed on |
| `Throttle.FailedWritesAreNotLimited` | `Godeps/_workspace/src/github.com/aybabtme/iocontrol/throttle.go:95-99` | A failing throttled write is neither counted nor followed by a wait: any number of them pass on a whole batch each at one moment |
| `Throttle.WriteEndsIff` | `Godeps/_workspace/src/github.com/aybabtme/iocontrol/throttle.go:82-102` | To a writer that never fails, Write ends if and only if the batch limit is positive or the bytes fit at once |
| `Throttle.Throttled.Write` | `Godeps/_workspace/src/github.com/aybabtme/iocontrol/throttle.go:82-102` | Fails if and only if a call of the wrapped writer fails; without that it passes on exactly its input, in order, and with it exactly the counted part; and it stays within the limiter's rules |
| `Throttle.Throttled.Read` | `Godeps/_workspace/src/github.com/aybabtme/iocontrol/throttle.go:41-59` | One call of the wrapped reader for as much as fits the room and the batch, or none if that is nothing; returns what it gave, and fails if and only if it did |
| `Throttle.RateLimiter.Limit` | `Godeps/_workspace/src/github.com/aybabtme/iocontrol/limiter.go:51-59` | The next batch starts no sooner than one resolution after the last |
| `Throttle.RateLimiter.SetRate` | `Godeps/_workspace/src/github.com/aybabtme/iocontrol/limiter.go:46-49` | Sets the bytes per batch for the rate |
| `Throttle.PerBatchWithinRate` | `Godeps/_workspace/src/github.com/aybabtme/iocontrol/limiter.go:23-31` | Construction panics unless the resolution is at most a second and not zero; the batches of a second stay within the rate and one byte more per batch would not |
| `Stopwatch.NeverEarly` | `agents/timer.go:47-94` | For every command sequence and monotone clock, with timeout >= 0: 0 <= elapsed <= timeout at every tick boundary; the timer fires only after its true running time since the last start or reset exceeds the timeout, and exactly when that time less what the double clock reading missed does |
| `Stopwatch.RunKeeps` | `agents/timer.go:47-94` | Counted plus missed time is the true running time, over every run |
| `Stopwatch.FiresExactly` | `agents/timer.go:79-85` | Whether a tick fires, by running time, missed time and command |
| `Stopwatch.RestartBetweenFirings` | `agents/timer.go:53-85` | Between two firings a start or a resume was handled |
| `Stopwatch.WallclockTimer.TimerTicker` | `agents/timer.go:47-87` | The loop as it runs leaves the state, and fires at the ticks, that the step function defines |
| `Stopwatch.WallclockTimer.Turn` | `agents/timer.go:48-86` | One tick with its command |
| `Stopwatch.WallclockTimer.IncrementTimer` | `agents/timer.go:89-94` | Adds the time up to the first reading, goes on from the second |
| `Stopwatch.FiringsFire` | `agents/timer.go:79-85` | The ticks listed are exactly those that fire |
| `Stopwatch.FiringsRise` | `agents/timer.go:79-86` | Each firing is sent once, in order |
| `BinaryIO.ReadAfterWrite` | `Godeps/_workspace/src/github.com/shirou/gopsutil/process/binary.go:138-335` | Reading what was written restores the data, by whichever paths, in either byte order, leaving what follows; blank fields keep what was there |
| `BinaryIO.Write` | `Godeps/_workspace/src/github.com/shirou/gopsutil/process/binary.go:230-335` | Fast path or not, the octets are those of the reflective encoder; an unacceptable type is refused |
| `BinaryIO.Read` | `Godeps/_workspace/src/github.com/shirou/gopsutil/process/binary.go:138-221` | Fast path or not, reads exactly the size and decodes, or reports a short input or an invalid type; a signed integer passed without a pointer is read and dropped |
| `BinaryIO.PlainReadIff` | `Godeps/_workspace/src/github.com/shirou/gopsutil/process/binary.go:140-214` | What is passed without a pointer, and is no slice, is read and dropped if and only if it is of a predeclared signed integer type; every other type, declared integer types included, is refused with nothing consumed |
| `BinaryIO.ReadTakes` | `Godeps/_workspace/src/github.com/shirou/gopsutil/process/binary.go:140-214` | Reading consumes exactly the size of what it reads into, or all there is if that is less, with the error that says whether there was any |
| `BinaryIO.FastEncoding` | `Godeps/_workspace/src/github.com/shirou/gopsutil/process/binary.go:247-318` | The integers of a slice put one after the other are the reflective encoding |
| `BinaryIO.FastDecoding` | `Godeps/_workspace/src/github.com/shirou/gopsutil/process/binary.go:168-197` | The same for reading |
| `BinaryIO.PutSlice` | `Godeps/_workspace/src/github.com/shirou/gopsutil/process/binary.go:275-318` | The fast loop writes every integer at its place |
| `BinaryIO.GetSlice` | `Godeps/_workspace/src/github.com/shirou/gopsutil/process/binary.go:174-197` | The fast loop reads every integer from its place |
| `BinaryIO.Encoder.PutValue` | `Godeps/_workspace/src/github.com/shirou/gopsutil/process/binary.go:520-590` | The in-place encoder fills exactly the size of the type with the encoding and touches nothing else |
| `BinaryIO.Encoder.SkipZero` | `Godeps/_workspace/src/github.com/shirou/gopsutil/process/binary.go:596-602` | A blank field becomes zeros |
| `BinaryIO.Decoder.GetValue` | `Godeps/_workspace/src/github.com/shirou/gopsutil/process/binary.go:454-518` | The decoder consumes exactly the size of the type and yields the decoded value |
| `BinaryCodec.RoundTrip` | `Godeps/_workspace/src/github.com/shirou/gopsutil/process/binary.go:454-590` | For every pointer-free type, order and value: decoding the encoding restores the value, blank fields excepted |
| `BinaryCodec.DecodeEncode` | `Godeps/_workspace/src/github.com/shirou/gopsutil/process/binary.go:454-590` | Conversely, without blank fields every string of octets of the right length is the encoding of what it decodes to |
| `BinaryCodec.SameEncodingIff` | `Godeps/_workspace/src/github.com/shirou/gopsutil/process/binary.go:528-538` | Two values have the same encoding if and only if they differ in blank fields only |
| `BinaryCodec.RestoredWhole` | `Godeps/_workspace/src/github.com/shirou/gopsutil/process/binary.go:462-476` | Without blank fields nothing is lost |
| `BinaryCodec.BlankOctets` | `Godeps/_workspace/src/github.com/shirou/gopsutil/process/binary.go:596-602` | A blank field is written as zeros |
| `BinaryCodec.ScalarSizes` | `Godeps/_workspace/src/github.com/shirou/gopsutil/process/binary.go:347-390` | The sizes of the scalar types |
| `BinaryCodec.ScalarOctets` | `Godeps/_workspace/src/github.com/shirou/gopsutil/process/binary.go:438-452` | Byte order, two's complement, and a complex number as its real and then its imaginary part |
| `BinaryCodec.NoPadding` | `Godeps/_workspace/src/github.com/shirou/gopsutil/process/binary.go:454-590` | Fields and elements follow one another without padding |
| `BinaryCodec.Sizeof` | `Godeps/_workspace/src/github.com/shirou/gopsutil/process/binary.go:359-384` | Computes the size with early exit on an unacceptable field |
| `BinaryCodec.SizedIffAcceptable` | `Godeps/_workspace/src/github.com/shirou/gopsutil/process/binary.go:358-384` | A type has a size if and only if nothing unacceptable occurs anywhere inside |
| `BinaryCodec.Encode` | `Godeps/_workspace/src/github.com/shirou/gopsutil/process/binary.go:520-590` | The encoding is exactly as long as the size of the type |
| `ByteOrder.PutGet` | `Godeps/_workspace/src/github.com/shirou/gopsutil/process/binary.go:51-123` | What a putter writes the getter of the same order reads |
| `ByteOrder.GetPut` | `Godeps/_workspace/src/github.com/shirou/gopsutil/process/binary.go:51-123` | And the octets of a number are those it was read from |
| `ByteOrder.OrdersMirror` | `Godeps/_workspace/src/github.com/shirou/gopsutil/process/binary.go:49-123` | One order is the other backwards |
| `ByteOrder.OrIsSum` | `Godeps/_workspace/src/github.com/shirou/gopsutil/process/binary.go:51-112` | The bitwise or with an octet shifted past all bits of the other operand is their sum |
| `ByteOrder.ShrIsQuotient` | `Godeps/_workspace/src/github.com/shirou/gopsutil/process/binary.go:53-123` | Shifting right by whole octets divides |
| `ByteOrder.Uint32` | `Godeps/_workspace/src/github.com/shirou/gopsutil/process/binary.go:58-107` | The four octets shifted and joined bit by bit are the number |
| `ByteOrder.PutUint64` | `Godeps/_workspace/src/github.com/shirou/gopsutil/process/binary.go:74-123` | The eight shifted octets are the number in that order, in place |
| `ByteOrder.PutUint32` | `Godeps/_workspace/src/github.com/shirou/gopsutil/process/binary.go:62-107` | The same for four |
| `ByteOrder.PutUint16` | `Godeps/_workspace/src/github.com/shirou/gopsutil/process/binary.go:53-96` | The same for two |
| `ByteOrder.Uint64` | `Godeps/_workspace/src/github.com/shirou/gopsutil/process/binary.go:69-112` | The eight octets shifted and joined bit by bit are the number |

## Left out

- Fields.ReadField: reading a byte array of negative length is a failing outcome where the code panics; both end the reader.
- Frames.FrameRoundTrip: a frame whose payload is 2^32 octets or longer is outside the statement, as its size field cannot hold the length.
- Connection.EndToEnd: the negotiated frame size is more than 8 and below 2^32; channel 0 carries heartbeats only; the client methods of the connection itself, and deliveries to consumers beyond the hand-over to dispatch, are not followed.
- ConnectionIO.Link.Demux: the listeners' part of blocked notices and the hand-over of replies on channel 0 to a waiting call are not modelled.
- ConnectionIO.Link.CloseWith: the shutdown of channels and listeners that follows the wait is not modelled.
- ConnectionIO.Link.Read: the hand-over of a reply, on channel 0 or another, which blocks the reader too while no call is waiting for one, is not modelled; a wait in closeWith that another goroutine ends, by shutting the connection down, is not followed further; after the broker's close, or a send that fails, the code's next read fails, where the model reads on without effect.
- ConnectionIO.Link.Remove: the sequence of channel ids with its wrap-around is not modelled.
- Methods.MethodRoundTrip: 16-bit, 32-bit and 64-bit fields must be within their widths, which their Go types guarantee.
- Properties.PropertiesRoundTrip: timestamps are whole seconds, and nil and empty headers are one.
- Confirms.RunAccounted: tags and the publish counter are unbounded, the code's are 64 bits wide; a listener that does not receive would block the code.
- Channel.Sender.SendOpen: needs a frame size other than 8 or a message without a body, because otherwise the code's loop does not end (`Channel.SendEndsIff`).
- Listeners.Registrations.NotifyClose: stands for NotifyFlow, NotifyReturn and NotifyCancel as well, which differ only in the list.
- Listeners.Registrations.Shutdown: the error handed to a waiting call is not modelled.
- Convey.Suite.RootConvey: contexts are found by their path instead of pointers, so that aliasing is not captured; sibling names must be distinct (the code panics otherwise); focus, skipping, resets, assertions and panics in bodies are left out.
- MockClock.Mock.Set: needs that no ticker without a positive period is due by the target, because otherwise the code's loop does not end (`MockClock.MoveEndsIff`); timers due at the same time fire in an order left open, as the sort is not stable; callbacks do not touch the clock; a firing is a call of Tick, whether or not anyone receives.
- MockClock.TickerInLog: times are those of calls of Tick; after the clock was set back the general statement is Mock.Valid's, by the stages it went through.
- Gls.ContextManager.SetValues: values are maps that nobody changes afterwards; the code shares the caller's map when there is nothing to merge.
- Gls.GoPreservesValuesIff: the managers registered are visited in a given order, whichever it is.
- GlsTraces.EveryTracedRun: tags are below 2^64; between two calls of SetValues a goroutine calls and returns as it likes, but it does not unwind past a callback without its SetValues returning.
- StackTags.TagsReadBack: tags are below 2^64; the limit of 64 frames to a trace is treated by CutStackTags, Gls.TraceShows and GlsTraces.EveryTracedRun.
- Throttle.Throttled.Write: needs a positive batch limit or input that fits at once, because otherwise the code's loop does not end (`Throttle.WriteEndsIff`).
- Throttle.KeepsIff: a window includes both its ends; each call of the wrapped stream takes effect at one moment between its start and its end.
- Stopwatch.WallclockTimer.Turn: waiting for a receiver on the done channel is not modelled, nor is the one-slot command channel.
- BinaryIO.Write: a slice of bytes is written by the same loop as other integers, where the code uses it as it is.
- BinaryCodec.RoundTrip: pointers inside values are left out, as the size counts them but the decoder does not consume them; non-blank fields are exported, as the code's documentation demands.
- Heartbeats as a timer, TLS, SASL, dialling and the handshake, and the wait for replies: I/O and timing.
- Failures of the network while a frame is being written, except that a Sender's send may fail.
- `uri.go`: rests on net/url, which is not part of this model.
- `main.go`, the job and remote control agents and the process statistics: selection over signals, process spawning and broker calls; they would add easy members only.
- iocontrol's pools and counters, logging, assertions and reporters: no state worth a proof, or formatting.
- Deadlock freedom between the monitor and the timer is not claimed.

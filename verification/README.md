# Corsair: verified model of the runtime's stateful core

Corsair is a market-making runtime for futures options. This project models the parts of it whose
correctness is a matter of protocol, bookkeeping or arithmetic over whole runs, and proves what they
promise. `dafny verify dfyconfig.toml` checks everything.

| part | modules |
|---|---|
| Shared-memory IPC: byte ring, framing, command pump | `Bytes`, `Framing`, `IpcProtocol`, `Ring`, `RingInterleaving`, `RingCalls`, `CommandPump` |
| IBKR wire layer: codec, order encoders, order ids, acknowledgements | `Codec`, `PlaceOrder`, `PlaceTemplate`, `OrderReading`, `OrderIds`, `AckProtocol` |
| Hedging: fill accounting, execution dedup, rebalancing and scheduling | `HedgeAccounting`, `ExecDedup`, `Hedging` |
| Trading state and gates | `OrderBook`, `Constraint`, `AtmTracking` |
| Python pricing edges | `ParityForward`, `QuoteDecision` |
| Shared vocabulary | `Wrappers`, `Sums`, `Rounding`, `BrokerTypes` |

Components whose methods update fields or buffers are classes, or methods over a mutable buffer; each
method is tied to a specification function, and the theorems are about those functions, over every
input and every run. What several threads or tasks do at once (ring, pump, acknowledgements) is a
transition system whose schedules are arbitrary lists of steps. Offsets, positions and ids are
mathematical integers and prices are reals unless said otherwise; `i32` order ids, the 32-bit frame
header, the saturating float-to-integer casts and both roundings are written out.

## Main results

- Ring and pump. In every interleaving of offset loads, single-byte moves (in any order) and offset
  stores, what was read followed by what is still in the ring is exactly what was accepted; a copy in
  progress never touches unread bytes. With packed frames and half the ring at most
  `MAX_FRAME_BYTES + 4`, the pump delivers each body exactly once and in order, fails no tick and
  drops no tail; each of its steps is a step of a message queue. That capacity bound is exact.
- Wire codec. Any messages followed by any incomplete frame, cut in any way, decode to exactly those
  messages and leave exactly that frame.
- Encoders. The reference frame decodes to every field of the order, so that no two orders share one
  (the sign of an infinity apart). For every order and contract the spliced frame is byte for byte the
  reference frame, and at every placement of every run the frame sent is right exactly when the
  instrument's first descriptor has the same contract text.
- Order ids strictly increase in every interleaving exactly as long as announced ids plus later
  allocations stay within 32 bits.
- Acknowledgements. A caller told success, rejection or connection loss was told it by the first
  matching event, once; nothing later changes it; and from every reachable state a matching event
  does return its caller.
- Hedge accounting realizes P&L only on what a fill closes, and conserves value over every run of fills
  at every mark it does not guard away; total value is independent of fill order; the average entry
  stays within the prices that built the position.
- Execution dedup with bounded memory removes exactly the repeats if and only if each repeat is timely.
- Gates. Accepted states are inside every kill limit; with the escape off no soft-cap excess rises, and
  with it on delta and theta excess rises only at an escape.
- A chain of quotes that obeys put-call parity at a forward yields that forward.
- Order book, ATM window, quote pricing: see the table.

## Where the code differs from what is said about it

- A decode error discards the complete frames found in the same call
  (`rust/corsair_ipc/src/protocol.rs:48`, `rust/corsair_broker_ibkr_native/src/codec.rs:100`), so the
  result depends on chunking exactly when a complete frame precedes an oversize header
  (`Framing.ChunkingIrrelevantIff`).
- `DEFAULT_RING_CAPACITY` meets the capacity bound, but nothing enforces it: a larger ring accepts a
  frame that the pump then rejects, along with everything in the same tick.
- The comment at `rust/corsair_broker_ibkr_native/src/broker.rs:375-377` names PreSubmitted among the
  statuses that must acknowledge; `parse_status` maps it to a pending status that does not.
- A waiter stays behind its caller exactly when the parameters were refused and no matching event has
  come since (`rust/corsair_broker_ibkr_native/src/broker.rs:1008-1014`).
- A settled order is reported as a timeout exactly when its result was on its way from the dispatcher
  as the timer fired, or came between the timer and the clean-up (`AckProtocol.TimeoutLosesIff`); a
  failed send can hide a result in the same ways, or one already in the channel.
- `force_flat` makes the same decision as an ordinary rebalance and reaches exactly zero only for a
  whole option delta. In observe mode `flatten_on_halt` records nothing, so it repeats for ever.
- Mark-to-market is zero at a mark that is not positive, even with a position open: value is then
  conserved only if the ignored term is zero.
- Relinking a record leaves its old reverse entry, and a later status for the old id removes the
  record of the new order. Any status, PendingCancel included, takes a record out of its pending-cancel
  state (`OrderBook.PendingCancelStaysIff`).
- Quote prices are rounded after the crossing test: some buy passes the ask exactly when the ask is more
  than half a tick above the grid point under it (`QuoteDecision.BuyNeverPassesIff`, and the mirror for
  sells), and a target of at most half a tick is placed at zero.
- The order-id counter wraps at the largest 32-bit integer, after which a broadcast can restart it.

## Model

| member | source | states |
|---|---|---|
| Bytes.Be32RoundTrip | rust/corsair_ipc/src/protocol.rs:17-29 | A length written as a header and read back loses exactly the bits above the 32nd |
| Bytes.Be32OfFromBe32 | rust/corsair_ipc/src/protocol.rs:27-29 | Every four header bytes are the header of the length they spell |
| Bytes.HeadersOrderAsLengths | rust/corsair_ipc/src/protocol.rs:27-29 | Headers are in lexicographic order exactly when the lengths read from them are in order: the first byte is the most significant |
| Bytes.LengthsOrderAsHeaders | rust/corsair_ipc/src/protocol.rs:17-17 | And lengths exactly when the headers written for them are |
| Framing.NextOfPack | rust/corsair_ipc/src/protocol.rs:15-42 | A packed body within the cap is recognised at the front of a buffer, whatever follows |
| Framing.NextIsPack | rust/corsair_ipc/src/protocol.rs:23-42 | Whatever is recognised is the packing of its body, within the cap |
| Framing.DrainSound | rust/corsair_ipc/src/protocol.rs:46-52 | Draining splits a buffer into packings and a rest, losing and inventing no byte, and stops only at an incomplete or oversize front |
| Framing.DrainComplete | rust/corsair_ipc/src/protocol.rs:46-52 | Every list of fitting bodies followed by any unrecognisable rest is recovered exactly |
| Framing.DrainResumes | rust/corsair_broker_ibkr_native/src/client.rs:375-376 | Draining a prefix and then its rest with more bytes finds what draining the whole finds |
| Framing.FeedMatchesDrain | rust/corsair_broker_ibkr_native/src/client.rs:360-447 | After any cutting of a stream, buffer, bodies and liveness of the receive loop are those of the uncut stream, up to an oversize header |
| Framing.ChunkingIrrelevantIff | rust/corsair_broker_ibkr_native/src/codec.rs:98-104 | For any stream, all cuttings deliver the same bodies if and only if no complete frame precedes an oversize header |
| Framing.SplitBeforeOversize | rust/corsair_ipc/src/protocol.rs:46-52 | The failing family: read together with a bad header the good frames are lost, read before it they are delivered |
| Framing.EmptyThenOversize | rust/corsair_ipc/src/protocol.rs:30-35 | Below the largest header every cap has such a stream: one empty frame and four bytes of 255 |
| IpcProtocol.PackFrame | rust/corsair_ipc/src/protocol.rs:15-20 | The output is the frame of the body, and within the cap it is unpacked back whatever follows it |
| IpcProtocol.TryUnpackFrame | rust/corsair_ipc/src/protocol.rs:23-42 | Takes one frame off the buffer; on an incomplete or oversize front the buffer is unchanged |
| IpcProtocol.UnpackAllFrames | rust/corsair_ipc/src/protocol.rs:46-52 | All complete frames in order with the partial one left, or an error that replaces the frames already found |
| Ring.CellAfter | rust/corsair_ipc/src/ring.rs:187-197 | The cell a given distance on from an offset is reached by at most one wrap-around |
| Ring.DistinctCells | rust/corsair_ipc/src/ring.rs:182-197 | Offsets less than one lap apart never share a cell |
| Ring.Ring.CreateOwner | rust/corsair_ipc/src/ring.rs:39-67 | A created ring is empty with both offsets and the drop counter zero |
| Ring.Ring.CopyFrame | rust/corsair_ipc/src/ring.rs:187-197 | The wrap-around copy puts byte i of the frame at offset + i modulo the capacity and keeps every byte of the lap behind it |
| Ring.Ring.WriteFrame | rust/corsair_ipc/src/ring.rs:175-206 | Accepts exactly frames of at most half the ring that fit the free space, appending them to the unread bytes; a refusal moves only the drop counter |
| Ring.Ring.ReadAvailable | rust/corsair_ipc/src/ring.rs:209-228 | Returns exactly the unread bytes in order and empties the ring |
| RingInterleaving.CopyAvoidsUnread | rust/corsair_ipc/src/ring.rs:181-197 | A copy in progress, made against a stale read offset, never touches a published unread byte |
| RingInterleaving.WriteKeepsUnread | rust/corsair_ipc/src/ring.rs:187-197 | Storing past the write offset within a lap of the reader keeps the unread bytes |
| RingInterleaving.ChunkIsStream | rust/corsair_ipc/src/ring.rs:210-225 | A finished read holds exactly the accepted bytes between the two offsets it loaded, though the producer may have moved on |
| RingInterleaving.ChunkIsWholeFrames | rust/corsair_ipc/src/ring.rs:209-228 | Bytes between two publish points are a whole number of accepted frames |
| RingInterleaving.StepKeeps | rust/corsair_ipc/src/ring.rs:158-228 | Every load, byte move and store of either side keeps the invariant tying offsets, memory, in-flight copies and history |
| RingInterleaving.RunKeeps | rust/corsair_ipc/src/ring.rs:158-228 | So does every schedule |
| RingInterleaving.EveryScheduleIsFifo | rust/corsair_ipc/src/ring.rs:158-228 | In every schedule: read <= write <= read + capacity; chunks read followed by ring contents equal the accepted frames; every chunk is whole frames |
| RingCalls.UninterruptedWrite | rust/corsair_ipc/src/ring.rs:175-206 | The producer's steps run without interruption do what the method's contract says, acceptance condition included |
| RingCalls.UninterruptedRead | rust/corsair_ipc/src/ring.rs:209-228 | Likewise for the consumer's steps: one chunk with everything unread, or none |
| CommandPump.Publish | rust/corsair_ipc/src/server.rs:128-132 | The packed body joins the ring exactly when accepted; under the capacity bound an accepted body is one the other side can unpack |
| CommandPump.Tick | rust/corsair_ipc/src/server.rs:165-195 | One tick sends the bodies of everything in the ring in order, or nothing on an unpack error; packed bodies within the cap all come out |
| CommandPump.ChunkUnpacks | rust/corsair_ipc/src/server.rs:168-183 | A chunk taken while the writer runs unpacks to exactly the next accepted bodies with no remainder |
| CommandPump.StepKeepsPump | rust/corsair_ipc/src/server.rs:151-197 | Every step of writer and pump keeps the end-to-end invariant |
| CommandPump.EveryScheduleDelivers | rust/corsair_ipc/src/server.rs:151-197 | In every schedule the bodies of the accepted frames come out once, in order, unchanged, with no failed tick and no lost tail, and the rest is still in the ring |
| CommandPump.BodiesWereOffered | rust/corsair_ipc/src/server.rs:128-132 | In every schedule the accepted bodies, and the one being written, are offered bodies, unchanged and in order |
| CommandPump.PublishAddsItsBody | rust/corsair_ipc/src/server.rs:128-132 | An uninterrupted publish adds exactly its own body when the frame fits, and otherwise only counts a drop |
| CommandPump.RefinesFifo | rust/corsair_ipc/src/server.rs:151-197 | Every step is the message-queue step its label names: the published frame's body in at the back, the unpacked messages out at the front, or nothing |
| CommandPump.CapacityBoundIsExact | rust/corsair_ipc/src/ring.rs:177-180 | Every packed body a ring accepts can be unpacked if and only if half its capacity is at most MAX_FRAME_BYTES + 4 |
| Codec.FieldsOfTerminated | rust/corsair_broker_ibkr_native/src/codec.rs:76-91 | Splitting recovers every NUL-free field list, the empty list and trailing empty fields included |
| Codec.TerminatedOfFields | rust/corsair_broker_ibkr_native/src/codec.rs:76-91 | Encoding what was split gives the payload back, with a missing final NUL supplied |
| Codec.EncodeFields | rust/corsair_broker_ibkr_native/src/codec.rs:31-41 | The frame of the NUL-terminated fields; a sendable message is decoded back from it |
| Codec.SplitFields | rust/corsair_broker_ibkr_native/src/codec.rs:79-91 | The splitting loop yields the pieces between NULs with one trailing empty piece dropped |
| Codec.TryDecodeFrame | rust/corsair_broker_ibkr_native/src/codec.rs:61-94 | Takes one message off the buffer; incomplete and oversize fronts leave it unchanged |
| Codec.TryDecodeAll | rust/corsair_broker_ibkr_native/src/codec.rs:98-104 | All complete messages in order with the partial frame left, or an error that replaces them |
| Codec.SendEach | rust/corsair_broker_ibkr_native/src/client.rs:378-440 | Offering decoded messages in order leaves the outbox the specification gives, and stops at a closed channel |
| Codec.ReadTurn | rust/corsair_broker_ibkr_native/src/client.rs:375-446 | One turn of the loop appends, decodes and forwards, or fails and keeps what was forwarded |
| Codec.Receive | rust/corsair_broker_ibkr_native/src/client.rs:361-447 | For every list of reads and of channel answers, buffer, forwarded messages and counters are those of the reads taken, and the task stops at the first end of file, decode error or closed channel and nowhere else |
| Codec.StoppedStays | rust/corsair_broker_ibkr_native/src/client.rs:363-447 | A task that has stopped stays stopped whatever would arrive |
| Codec.ForwardAccounts | rust/corsair_broker_ibkr_native/src/client.rs:378-440 | Every decoded message is sent, dropped or the one that found the channel closed; the sent ones are in order those the channel took; a channel that takes everything gets everything |
| Codec.EveryCutDelivers | rust/corsair_broker_ibkr_native/src/codec.rs:31-104 | Any sendable messages then any incomplete frame, cut in any way: exactly those messages in order, exactly that frame kept |
| Codec.ProperPrefixNeedsMore | rust/corsair_broker_ibkr_native/src/codec.rs:61-75 | A proper prefix of a frame is never taken for a frame or an error |
| Codec.PartialArrival | rust/corsair_broker_ibkr_native/src/client.rs:375-378 | At every moment of a transmission the forwarded messages are those fully arrived and the buffer is the arrived part of the next |
| PlaceTemplate.FromContract | rust/corsair_broker_ibkr_native/src/place_template.rs:51-74 | The template is the terminated text of the contract's 14 fields |
| PlaceTemplate.PushBody | rust/corsair_broker_ibkr_native/src/place_template.rs:203-237 | The 30 pushes of the hot path append the terminated per-order fields and nothing else |
| PlaceTemplate.ReferenceSections | rust/corsair_broker_ibkr_native/src/requests.rs:176-306 | The 118 reference fields are header, contract, body and constants, in that order |
| PlaceTemplate.PlaceOrderFast | rust/corsair_broker_ibkr_native/src/place_template.rs:180-247 | For every order id, parameters and contract the template was built from, the frame equals the reference encoder's byte for byte |
| OrderReading.DecimalReads | rust/corsair_broker_ibkr_native/src/codec.rs:185-193 | A number written in decimal is read back by the integer parser of any range that holds it |
| OrderReading.ReferenceSays | rust/corsair_broker_ibkr_native/src/requests.rs:176-313 | The reference list says message type 3, the order id, every contract and parameter field in its place, and the constants |
| OrderReading.FrameSays | rust/corsair_broker_ibkr_native/src/requests.rs:171-314 | Decoding the frame of an order without NULs finds that list and everything it says |
| OrderReading.EqualFramesEqualOrders | rust/corsair_broker_ibkr_native/src/requests.rs:171-314 | Two orders with equal frames have equal ids, contracts and parameters, the sign of an infinity apart, for every formatter that tells finite values apart |
| PlaceTemplate.TemplateCache.Frame | rust/corsair_broker_ibkr_native/src/broker.rs:1020-1029 | The cache holds the templates of the run's first descriptors, and the i-th frame ever sent is the reference frame of the i-th placement with its instrument's first descriptor |
| PlaceTemplate.DescriptorIsFirst | rust/corsair_broker_ibkr_native/src/broker.rs:1022-1027 | The cached descriptor is that of the first placement with the instrument |
| PlaceTemplate.SentFrameIsRightIff | rust/corsair_broker_ibkr_native/src/broker.rs:1020-1029 | Over every run and at every placement, the frame sent is the placement's own reference frame if and only if its instrument's first descriptor has the same contract text (the same fields, when none holds a NUL) |
| PlaceTemplate.ConsistentRunSendsReference | rust/corsair_broker_ibkr_native/src/broker.rs:1020-1029 | Over a run in which an instrument always carries one descriptor, every frame sent is the placement's own reference frame |
| PlaceTemplate.SplicedTextEqualIff | rust/corsair_broker_ibkr_native/src/place_template.rs:191-246 | Frames that share all sections but one are equal exactly when that section's bytes are |
| PlaceTemplate.SplicedFramesEqualIff | rust/corsair_broker_ibkr_native/src/place_template.rs:191-246 | For NUL-free fields, exactly when that section's fields are |
| PlaceTemplate.CachedFrameIsRightIff | rust/corsair_broker_ibkr_native/src/broker.rs:1020-1029 | A cached descriptor gives the right frame if and only if its contract text, and for NUL-free fields its contract fields, equal the order's own |
| OrderIds.Counter.AllocOrderId | rust/corsair_broker_ibkr_native/src/client.rs:123-130 | Returns the counter and advances it when seeded, as the event specification says |
| OrderIds.Counter.OnNextValidId | rust/corsair_broker_ibkr_native/src/client.rs:393-396 | Max-merge: a stale or smaller broadcast changes nothing |
| OrderIds.CounterBounds | rust/corsair_broker_ibkr_native/src/client.rs:123-130 | Before the wrap, the counter exceeds every id handed out, is at least every id announced, and is zero, an announced id or a successor |
| OrderIds.NeverReusedIff | rust/corsair_broker_ibkr_native/src/client.rs:384-401 | In every interleaving, positive ids strictly increase if and only if none follows the largest 32-bit id |
| OrderIds.OrderlyIff | rust/corsair_broker_ibkr_native/src/client.rs:384-401 | Every id handed out is above all earlier ones (zeros of an unseeded counter apart) if and only if each announced id plus the allocations after it stays within the 32-bit range |
| OrderIds.AtLeastAnnounced | rust/corsair_broker_ibkr_native/src/client.rs:384-401 | The next id is at least every id announced so far, the first included |
| OrderIds.WrapReuses | rust/corsair_broker_ibkr_native/src/client.rs:126-128 | A concrete run in which the wrapped counter hands out id 1 twice |
| AckProtocol.DispatchResolvesOne | rust/corsair_broker_ibkr_native/src/broker.rs:355-405 | A message takes out of the map exactly the waiters of the orders it settles, in flight with the result it carries; every other waiter and every channel is untouched |
| AckProtocol.DrainResolvesAll | rust/corsair_broker_ibkr_native/src/broker.rs:957-978 | Disconnect empties the map, fills exactly the registered waiters' channels with connection loss, all empty until then, and changes nothing else |
| AckProtocol.StepKeeps | rust/corsair_broker_ibkr_native/src/broker.rs:995-1061 | Every step of callers, dispatcher, timer and disconnect keeps the invariant that each sender is in exactly one place |
| AckProtocol.EventsAreHandled | rust/corsair_broker_ibkr_native/src/broker.rs:355-559 | An idle dispatcher handles every message it is given and a busy one none; disconnect is handled at any time |
| AckProtocol.MessageReturns | rust/corsair_broker_ibkr_native/src/broker.rs:355-405 | From every reachable state a waiting caller returns success after any accepting message and rejection after any refusing one, and after any other message still waits, registered |
| AckProtocol.DisconnectReturns | rust/corsair_broker_ibkr_native/src/broker.rs:957-978 | And connection loss after a disconnect |
| AckProtocol.CallSteps | rust/corsair_broker_ibkr_native/src/broker.rs:999-1034 | An uninterrupted call takes the next id, registers its waiter before sending, and ends waiting, refused with its waiter left, or failed with its waiter removed |
| AckProtocol.TimerReturns | rust/corsair_broker_ibkr_native/src/broker.rs:1047-1059 | A timer that is not overtaken returns a timeout and removes the waiter |
| AckProtocol.OutcomeIsFirstMatch | rust/corsair_broker_ibkr_native/src/broker.rs:1041-1060 | In every run an outcome is that of the first matching event since the waiter was installed; no channel is dropped; a waiter outlives its caller only after refused parameters with no match since |
| AckProtocol.FirstMatchMeans | rust/corsair_broker_ibkr_native/src/broker.rs:355-405 | A log has a first match exactly when it holds an open order, an accepting status text, a rejecting code or a disconnect for the order; the first of them decides which result it is |
| AckProtocol.OutcomeHasCause | rust/corsair_broker_ibkr_native/src/broker.rs:522-555 | In every run, behind each success, rejection or connection loss stands such an event, after the waiter was installed and with nothing that settles the order in between |
| AckProtocol.StepSettles | rust/corsair_broker_ibkr_native/src/broker.rs:522-555 | No step changes a returned outcome, a filled channel or a first match |
| AckProtocol.ResolvedOnce | rust/corsair_broker_ibkr_native/src/broker.rs:995-1061 | Nor does any continuation of any run |
| AckProtocol.MatchIsReceived | rust/corsair_broker_ibkr_native/src/broker.rs:1041-1043 | A waiting caller whose match has come returns exactly that result at its next look |
| AckProtocol.PreSubmittedDoesNotAck | rust/corsair_broker_ibkr_native/src/broker.rs:572-582 | PreSubmitted resolves no waiter, Submitted resolves its own |
| AckProtocol.AtTimer | rust/corsair_broker_ibkr_native/src/broker.rs:1041-1054 | When the timer fires on a waiting caller, its match has come if and only if the result is on its way from the dispatcher |
| AckProtocol.AtSendError | rust/corsair_broker_ibkr_native/src/broker.rs:1030-1033 | When a send fails, its match has come if and only if the result is on its way or already in the channel |
| AckProtocol.TimeoutLosesIff | rust/corsair_broker_ibkr_native/src/broker.rs:1041-1059 | In every run, a caller about to report a timeout has had its order settled if and only if the result was on its way when the timer fired or an event handled since then settles the order; it reports the timeout all the same |
| AckProtocol.SendFailedLosesIff | rust/corsair_broker_ibkr_native/src/broker.rs:1030-1034 | Likewise for a failed send, with a result already in the channel as a third case |
| AckProtocol.TimerCanBeatDelivery | rust/corsair_broker_ibkr_native/src/broker.rs:358-371 | The first case is reachable: a concrete run in which an acknowledged order is reported as a timeout |
| AckProtocol.LateSuccessIsLost | rust/corsair_broker_ibkr_native/src/broker.rs:1047-1054 | So is the second: a success handled between the timer and the clean-up reaches an abandoned channel |
| AckProtocol.FailedSendHidesResult | rust/corsair_broker_ibkr_native/src/broker.rs:1030-1034 | A concrete run in which a failed send is reported although the channel holds a connection loss |
| HedgeAccounting.HedgeState.ApplyFill | rust/corsair_hedge/src/state.rs:36-72 | The new state is the four-way accounting of the fill |
| HedgeAccounting.HedgeState.MtmUsd | rust/corsair_hedge/src/state.rs:75-80 | Position value at the mark; zero when flat or the mark is not positive |
| HedgeAccounting.HedgeState.Replace | rust/corsair_hedge/src/state.rs:84-87 | Position and entry are overwritten and realized P&L stays |
| HedgeAccounting.FillMoves | rust/corsair_hedge/src/state.rs:37-38 | A buy adds its quantity and a sell takes it away |
| HedgeAccounting.FillRealizes | rust/corsair_hedge/src/state.rs:40-71 | Every fill realizes, with the position's sign, closed quantity times (price - entry) times multiplier, hence nothing unless opposite to the position |
| HedgeAccounting.FillEntry | rust/corsair_hedge/src/state.rs:40-71 | The entry is size-weighted on the same side, kept by a partial close, the price after a flip, and zero when flat |
| HedgeAccounting.AddingRealizesNothing | rust/corsair_hedge/src/state.rs:49-56 | A run of fills of one side realizes nothing, and its entry times its quantity is what was paid |
| HedgeAccounting.FillConserves | rust/corsair_hedge/src/state.rs:36-72 | In all four cases a fill changes total value at any mark by exactly what it traded |
| HedgeAccounting.RunConserves | rust/corsair_hedge/src/state.rs:36-72 | Over every run from flat, unguarded value is the sum of signed quantity times (mark - price) times multiplier |
| HedgeAccounting.ValueConservedIff | rust/corsair_hedge/src/state.rs:36-80 | Realized P&L plus mark-to-market equals that sum if and only if the mark is positive or the guarded term is zero |
| HedgeAccounting.OrderIrrelevant | rust/corsair_hedge/src/state.rs:36-80 | Total value at a positive mark is the same for every permutation of the fills |
| HedgeAccounting.AverageEntryBounded | rust/corsair_hedge/src/state.rs:36-72 | Quantity is the net of the fills; flat means zero entry; otherwise entry lies between the prices that built the position since it opened or flipped |
| HedgeAccounting.ZeroEntryIffFlat | rust/corsair_hedge/src/state.rs:36-72 | With positive prices the entry is zero exactly when flat |
| ExecDedup.RecordKeeps | rust/corsair_hedge/src/manager.rs:303-309 | Eviction and insertion keep the set equal to the contents of a duplicate-free bounded FIFO |
| ExecDedup.MemoryIsWindow | rust/corsair_hedge/src/manager.rs:300-313 | In every run the FIFO is the last 10,000 accepted ids (any bound), the set its contents, the hedge the accounting of the accepted fills |
| ExecDedup.DistinctIds | rust/corsair_hedge/src/manager.rs:300-302 | The stream with repeats removed has every id of the stream exactly once |
| ExecDedup.AgreeStep | rust/corsair_hedge/src/manager.rs:300-309 | Bounded and unbounded memory agree after an execution exactly when they agreed before and no repeat was let through |
| ExecDedup.DedupExactIff | rust/corsair_hedge/src/manager.rs:300-309 | The bounded memory accepts exactly the first occurrences if and only if each repeat comes before that many newer ids |
| ExecDedup.HedgeOfDistinct | rust/corsair_hedge/src/manager.rs:289-325 | With timely repeats the hedge is that of the stream with repeats removed |
| Hedging.HedgeManager.Rebalance | rust/corsair_hedge/src/manager.rs:242-283 | The decision, and in observe mode its accounting at the given forward |
| Hedging.HedgeManager.MaybeRebalance | rust/corsair_hedge/src/manager.rs:226-238 | Idle within tolerance, otherwise the decision |
| Hedging.HedgeManager.RebalanceOnFill | rust/corsair_hedge/src/manager.rs:150-155 | When enabled, a gated rebalance at a literal forward of 6.0 |
| Hedging.HedgeManager.RebalancePeriodic | rust/corsair_hedge/src/manager.rs:160-184 | Advances the clock as the schedule specification says and rebalances exactly on an attempt |
| Hedging.HedgeManager.RequestPriorityDrain | rust/corsair_hedge/src/manager.rs:193-196 | The deadline becomes the later of the two |
| Hedging.HedgeManager.ForceFlat | rust/corsair_hedge/src/manager.rs:187-190 | The decision with a zero tolerance override |
| Hedging.HedgeManager.FlattenOnHalt | rust/corsair_hedge/src/manager.rs:199-223 | The closing trade when enabled and not flat; the state is not touched in either mode |
| Hedging.HedgeManager.ApplyBrokerFill | rust/corsair_hedge/src/manager.rs:289-325 | Counts exactly fills in execute mode, of the hedge contract, with a new non-empty id |
| Hedging.HedgeManager.ReconcileWithPosition | rust/corsair_hedge/src/manager.rs:331-352 | Overwrites the position exactly when the quantity differs |
| Hedging.CarryReachesTarget | rust/corsair_hedge/src/manager.rs:249-282 | Carrying a decision out in full reaches minus the rounded option delta, from any hedge |
| Hedging.DecisionMeans | rust/corsair_hedge/src/manager.rs:242-283 | In execute mode a rebalance is idle or places, in observe mode idle or logs at the given forward; either trades from the hedge to a target within half a delta, and it is idle only at one |
| Hedging.GateMeans | rust/corsair_hedge/src/manager.rs:232-237 | The gate holds a rebalance back exactly when |effective delta| is within the tolerance |
| Hedging.CarryTrades | rust/corsair_hedge/src/manager.rs:264-282 | Carrying an action out is a trade at its price: it moves the quantity by the action and the value at any mark by what was traded |
| Hedging.RebalanceResidualIff | rust/corsair_hedge/src/manager.rs:242-283 | After it the residual is at most one half if and only if the option delta is within reach of a 32-bit quantity |
| Hedging.RebalanceSettles | rust/corsair_hedge/src/manager.rs:226-283 | The next rebalance at the same delta is idle for every tolerance, mode and override |
| Hedging.GatedResidual | rust/corsair_hedge/src/manager.rs:226-238 | The gated rebalance leaves at most the larger of tolerance and one half |
| Hedging.ForceFlatIsRebalance | rust/corsair_hedge/src/manager.rs:186-190 | The delta-kill decision is the ordinary one and ends at exactly zero if and only if the delta is whole and within reach |
| Hedging.FlattenCloses | rust/corsair_hedge/src/manager.rs:198-223 | Carried out, the flatten closes the hedge and is then idle in execute mode; it is never idle while a hedge is open |
| Hedging.FlattenMeans | rust/corsair_hedge/src/manager.rs:199-223 | A halt trades exactly the opposite of the hedge, as an order in execute mode and a log entry in observe mode, and is idle exactly when disabled or flat |
| Hedging.EveryRunIsScheduled | rust/corsair_hedge/src/manager.rs:160-196 | With non-decreasing time, each ordinary attempt is a cadence after every earlier attempt; drains begun equal drains cleared plus the live one |
| Hedging.AttemptsIff | rust/corsair_hedge/src/manager.rs:160-184 | Over every timed run a periodic call attempts exactly when a drain is pending or a cadence of seconds has passed since the last attempt; the kind of attempt follows |
| Hedging.UrgentUntilDeadline | rust/corsair_hedge/src/manager.rs:166-171 | Every periodic call before the deadline of any earlier drain request attempts |
| Hedging.DeadlineOnlyRises | rust/corsair_hedge/src/manager.rs:172-196 | A set deadline is only raised, or cleared once by a call at or past it |
| Hedging.RequestRaises | rust/corsair_hedge/src/manager.rs:193-196 | A drain request raises the deadline to its own or keeps a later one |
| OrderBook.OrderBook.UpsertPending | rust/corsair_oms/src/book.rs:116-143 | The key gets a fresh unlinked record, its old id leaves the index, one placement is counted |
| OrderBook.OrderBook.LinkOrderId | rust/corsair_oms/src/book.rs:147-153 | Both maps get the link when the record exists; the acknowledgement is counted either way |
| OrderBook.OrderBook.ApplyStatus | rust/corsair_oms/src/book.rs:157-197 | State, counters and removal as the status demands; the result says whether the id was indexed |
| OrderBook.OrderBook.MarkPendingCancel | rust/corsair_oms/src/book.rs:202-206 | Only the state of an existing record changes |
| OrderBook.UpsertKeepsInverse | rust/corsair_oms/src/book.rs:116-143 | Replacing a record keeps the maps inverse |
| OrderBook.StatusKeepsInverse | rust/corsair_oms/src/book.rs:157-197 | Every status keeps the maps inverse |
| OrderBook.LinkKeepsInverseIff | rust/corsair_oms/src/book.rs:147-153 | Linking does so if and only if the record has no other id and the id no other record |
| OrderBook.RelinkMisroutes | rust/corsair_oms/src/book.rs:147-151 | After any relink, every terminal status for the old id removes the new order's record and leaves its id dangling |
| OrderBook.TerminalRemovesOne | rust/corsair_oms/src/book.rs:192-195 | A terminal status removes exactly one record, from both maps, and changes no other |
| OrderBook.EveryRunKeeps | rust/corsair_oms/src/book.rs:116-206 | Over every proper run the maps are inverse and placements equal current, superseded, filled, cancelled, rejected and inactive records |
| OrderBook.CountersCount | rust/corsair_oms/src/book.rs:116-197 | Over every proper run each counter is the number of its own events: fills, cancels and rejects the reports of that status for ids on the book, places and acknowledgements theirs |
| OrderBook.RecordHolds | rust/corsair_oms/src/book.rs:116-206 | A record stays as it is, its broker id aside, until the next placement or cancel at its key or status for its id |
| OrderBook.PlacementHolds | rust/corsair_oms/src/book.rs:131-140 | A placement leaves a pending record with its own price, quantity and time, until the key's next event |
| OrderBook.StatusHolds | rust/corsair_oms/src/book.rs:164-170 | A submitted status leaves the record live, and a pending one pending, until the key's next event |
| OrderBook.RetiredIdIsInert | rust/corsair_oms/src/book.rs:157-161 | Once an acknowledged id has left the index, no later status for it changes anything |
| OrderBook.SupersededIsRetired | rust/corsair_oms/src/book.rs:126-130 | Replacing a linked record retires its id |
| OrderBook.PendingCancelStaysIff | rust/corsair_oms/src/book.rs:163-206 | After a cancel is sent and until the next one, the record stays pending-cancel if and only if no placement at the key and no status for its id, given before or since, has come |
| Constraint.ConstraintChecker.Scale | rust/corsair_constraint/src/checker.rs:111-113 | Scaled margin stays within the calibration band of the raw margin |
| Constraint.ConstraintChecker.UpdateCachedMargin | rust/corsair_constraint/src/checker.rs:120-156 | Degenerate inputs change nothing; a ratio in the band is adopted exactly, any other gives 1 |
| Constraint.ConstraintChecker.CheckFill | rust/corsair_constraint/src/checker.rs:163-304 | The outcome is that of the gate order on the risk before and after the fill |
| Constraint.CheckMeans | rust/corsair_constraint/src/checker.rs:163-304 | In the check's own figures (quantity times delta, theta and multiplier, hedge only when gated, capital times percentages): which of the three kill limits refuses, exactly when a fill is accepted, and what each other refusal implies |
| Constraint.VerdictMeans | rust/corsair_constraint/src/checker.rs:186-303 | A verdict in terms of limits and excesses: inside every kill limit with no more premium excess, an escape is accepted as such, and anything else is accepted exactly when margin, delta and theta excess is each zero or strictly lower than before |
| Constraint.StepIsSafe | rust/corsair_constraint/src/checker.rs:186-303 | An accepted state is inside every kill limit; strict decisions raise no excess; an escape strictly lowers margin |
| Constraint.ViewOfStep | rust/corsair_constraint/src/checker.rs:168-184 | The risk after an accepted fill is the risk the next check starts from |
| Constraint.EveryRunIsSafe | rust/corsair_constraint/src/checker.rs:163-304 | Over every run the state is inside every kill limit once anything has been accepted, and the start until then; margin and premium excess never rise; with the escape off no excess rises |
| Constraint.RunAddsUp | rust/corsair_constraint/src/checker.rs:168-184 | Over every run option delta and theta are the start's plus the sums over accepted proposals, margin and premium those of the last accepted |
| Constraint.CapsStayMet | rust/corsair_constraint/src/checker.rs:163-304 | A margin or premium cap once met stays met, and with the escape off so does a delta or theta cap |
| Constraint.RiseIsEscape | rust/corsair_constraint/src/checker.rs:215-238 | Delta or theta excess rises over a run only through a step that raises it, and that step's verdict is the margin escape |
| Constraint.SafeBetween | rust/corsair_constraint/src/checker.rs:163-304 | So between any two moments of a run |
| ParityForward.ImpliedForwardFromParity | src/sabr.py:225-267 | Computes the common specification of the implied forward |
| ParityForward.ParityImpliedForwardDict | src/sabr.py:674-694 | Computes the same specification, so the two implementations agree on every chain and limits |
| ParityForward.MedianForward | src/sabr.py:256-267 | The filter loop and sort return the upper median of the surviving forwards, or nothing |
| ParityForward.SortMultiset | src/sabr.py:266-266 | Sorting is a permutation |
| ParityForward.MiddleOfSorted | src/sabr.py:267-267 | In a sorted list the middle lies in any interval that holds a majority |
| ParityForward.MedianOfMajority | src/sabr.py:266-267 | So does the median of an unsorted one |
| ParityForward.ImpliedIsRobust | src/sabr.py:225-267 | Absent exactly when no strike survives; within the deviation limit; settled by any majority of surviving strikes |
| ParityForward.SurvivorsAreStrikes | src/sabr.py:256-262 | The surviving forwards are those of two-sided strikes near the reference, at most one per strike |
| ParityForward.LatestQuoteWins | src/sabr.py:246-254 | The mid kept per strike and side is that of the last usable quote |
| ParityForward.MidsAreQuotes | src/sabr.py:246-254 | A mid is kept for a strike and side exactly when some usable quote of them came, and it is such a quote's mid |
| ParityForward.ParityIsRecovered | src/sabr.py:225-267 | A chain whose usable quotes obey put-call parity at a forward yields that forward, exactly when some strike is two-sided and the forward is within the deviation limit |
| AtmTracking.AtmTracker.MaybeRecenter | rust/corsair_market_data/src/atm.rs:34-66 | State and result as the recentring specification says |
| AtmTracking.AtmTracker.Contains | rust/corsair_market_data/src/atm.rs:68-70 | Membership of the closed window |
| AtmTracking.NearestIsNear | rust/corsair_market_data/src/atm.rs:44-44 | The new strike is within half an increment of the underlying |
| AtmTracking.DriftOfGrid | rust/corsair_market_data/src/atm.rs:55-55 | Drift between grid strikes is their exact distance, saturated to 32 bits |
| AtmTracking.CallCentres | rust/corsair_market_data/src/atm.rs:34-66 | One valid call from any grid state leaves a centred grid state less than the threshold from the nearest strike |
| AtmTracking.RecentersIff | rust/corsair_market_data/src/atm.rs:41-65 | A call changes nothing exactly when its input is not valid or the nearest strike is less than the threshold away; otherwise the nearest strike is taken and the window returned |
| AtmTracking.EveryCallCentres | rust/corsair_market_data/src/atm.rs:34-66 | After every valid call of every run the strike is on the grid, the window reaches width increments to either side of it, the underlying within (threshold - 1/2) increments |
| AtmTracking.NearestSubscribedIff | rust/corsair_market_data/src/atm.rs:34-70 | The nearest strike is in the window after every valid call of every run if and only if width >= threshold - 1 |
| AtmTracking.NarrowWindowMisses | rust/corsair_market_data/src/atm.rs:55-58 | For every narrower window, a two-call run that misses |
| QuoteDecision.QuantizeNear | src/trader/quote_decision.py:272-272 | Rounding moves a price by at most half a tick |
| QuoteDecision.QuantizeStays | src/trader/quote_decision.py:272-280 | And never across a price on the grid |
| Rounding.HalfEvenIff | src/trader/quote_decision.py:272-272 | A rounded price is the nearest whole number of ticks, the even one on a tie |
| Rounding.HalfAwayIff | rust/corsair_market_data/src/atm.rs:44-44 | A rounded strike or target is the nearest whole number, the one further from zero on a tie |
| QuoteDecision.BuyIsSafe | src/trader/quote_decision.py:261-274 | A placed buy is on the grid, min_edge_ticks ticks below theo give or take half a tick, not above an ask on the grid |
| QuoteDecision.SellIsSafe | src/trader/quote_decision.py:275-282 | The mirror image for a sell and the bid |
| QuoteDecision.BothSidesSpaced | src/trader/quote_decision.py:261-284 | If both place, they are at least twice the edge less one tick apart |
| QuoteDecision.PlacedAtZeroIff | src/trader/quote_decision.py:264-273 | A buy is placed at zero if and only if its target is at most half a tick |
| QuoteDecision.BuyNeverPassesIff | src/trader/quote_decision.py:264-273 | In a given open market, every buy any theo leads to stays at or below the ask if and only if the ask is at most half a tick above the grid point under it |
| QuoteDecision.SellNeverPassesIff | src/trader/quote_decision.py:276-281 | Every sell stays at or above the bid if and only if the bid is at most half a tick below the grid point over it |
| QuoteDecision.OffGridAskCanBePassed | src/trader/quote_decision.py:267-272 | A concrete buy above the ask |
| QuoteDecision.WiderEdgeRetreats | src/trader/quote_decision.py:261-282 | A wider edge never moves a quote towards theo, never newly crosses, never unplaces a sell, and unplaces a buy only by taking its target to zero |
| QuoteDecision.QuotesFollowTheo | src/trader/quote_decision.py:261-282 | In one market a higher theo never quotes lower on either side, never unplaces a sell, and unplaces a buy only by crossing |
| QuoteDecision.SkipIsHonest | src/trader/quote_decision.py:208-284 | A refusal names a gate that is really shut, and a crossing one the target it refused |

## Left out

- The mapping, FIFO notifications, TCP, tokio tasks and timers, and the CPU memory model: offset loads and stores and single-byte moves are atomic, sequentially consistent steps; 64-bit offsets do not wrap.
- A pump whose receiver has gone away, message `type` extraction and MessagePack bodies (bodies are opaque bytes), and drop-event broadcasts.
- Codec.Receive: a read error counts as end of file, the channel's answers are a parameter, and the dispatch of managed-accounts messages is not modelled (that of next-id messages is in `OrderIds`).
- Lossy UTF-8 conversion: a field is its bytes, and fields are taken as valid text.
- PlaceTemplate.PlaceOrderFast: shortest-round-trip float text is a function parameter shared by both encoders, and both integer formatters are one decimal function; the strings that requests are built from (`build_place_params`, `place_order_contract_request`) are given.
- The acknowledgement protocol is modelled on values, since its steps interleave; order ids there are unbounded (the wrap is in `OrderIds`), and the zero-quantity refusal, the caller's error texts and the other dispatcher arms are not modelled.
- `parse_*` helpers, the handshake and all other requests and decoders: no property beyond their bodies.
- IEEE rounding: prices, deltas and P&L are reals.
- HedgeAccounting.HedgeState.ApplyFill: quantities are unbounded, so the overflow of 32-bit positions and of the cast of an unsigned quantity is not modelled; likewise the desired change in `Hedging.HedgeManager.Rebalance`.
- Portfolio aggregation: its per-product delta and theta are given; `corsair_position` is not part of this model.
- Conservation across reconcile, which overwrites a position without realizing P&L.
- Reason strings, log lines and telemetry, `placed_at` clocks, 32-bit widths of counters, counters no modelled method touches, and `OrderBook.clear`.
- The order-book run theorem assumes fresh broker ids and at most one link per record; `OrderBook.LinkKeepsInverseIff` and `OrderBook.RelinkMisroutes` say what happens otherwise.
- ParityForward.MedianForward: the in-place list sort and the nested dictionary are values, so aliasing is not modelled; dictionary order is order of first insertion.
- QuoteDecision.BuyIsSafe: the Rust decision path, the time-to-expiry guard and the volatility surface are not modelled (theo is given or absent); the echoed request fields of the result are omitted.
- A kill cancelling every live order, and completion of contract-details requests: the repository's decoder does not support either claim.
- SABR and SVI calibration, Black-76, margin scanning, the risk monitor, dashboards, probes, configuration and snapshots: numerics or I/O.

# MessageComIR in Dafny

MessageComIR is a lock-step, half-duplex framing and handshake protocol over an infrared
link. The link can only send a value tagged with a bit-width and report the next decoded
(value, bit-width), or nothing. On top of that, `send` transmits a message in steps:

- a task, a quantity, and each data word followed by its CRC-CCITT checksum;
- then a terminator.

Each sender step makes up to five attempts and waits for a 13-bit acknowledgment. The
ack echoes the task, with the receiver's verdict in bit 12. `receive` reads each step
once and answers it with exactly one ack.

The model has seven modules:

- `Wire` (`wire.dfy`): frames, the protocol constants, and the receive channel as an
  `Inbox`. An inbox is the sequence of what successive receive calls report, one
  `Option<Frame>` per call.
- `Ack` (`ack.dfy`): the ack word operations `addStateToAck`, `getStateFromAckValue` and
  `checkAck`.
- `Crc` (`crc.dfy`): the byte step of avr-libc's `_crc_ccitt_update`, written out. It is
  proved to be the reflected division by x^16 + x^12 + x^5 + 1. The file also has
  `calcCrc` as a loop method, proved equal to the fold of that step over the word's
  big-endian bytes from 0xFFFF.
- `Sender` (`sender.dfy`): the sender steps and `send` as functions of the inbox. `TxStep`
  is one step with its retry loop, and `TxUnits` is a run of steps that stops at the
  first failure. The lemmas state the retry rule and the frame order and abort rule.
- `Receiver` (`receiver.dfy`): the receiver steps and `receive` as functions of the inbox.
  The lemmas state soundness, completeness and the write discipline on the caller's
  buffer.
- `Endpoint` (`endpoint.dfy`): class `MessageComIR`. Its fields are `inbox` (what its
  receive calls will report) and `outbox` (every frame it has transmitted). Its methods
  are the source's methods with their loops. Each one is proved to leave the state that
  the functions of `Sender` and `Receiver` describe.
- `Loopback` (`loopback.dfy`): a sender and a receiver joined by lossless links. The
  round trip delivers task, quantity and words unchanged.

Two behaviours of the code shape the handshake:

- A 13-bit ack that does not validate ends the step at once and costs no further attempt
  (MessageComIR.cpp:124-126). `Sender.RetryRule` and `Sender.NegativeAckFails` state this.
- The receiver sends its positive ack as soon as a frame of the right width arrives,
  before it compares the checksum or terminator value (MessageComIR.cpp:258-263, 271-276).
  `Receiver.RxChecksum` and `Receiver.RxTerm` state this.

Together with `receive` reading each step only once, these mean a retry helps only
against a peer that acknowledges a repeated frame. When the receiver's ack for the task is
lost, the sender's repeated task frame reaches the quantity step. That step answers with
the negative ack, and `send` fails (`Loopback.LostTaskAck`).

## Model

| member | source | states |
|---|---|---|
| Ack.GetStateFromAckValue | MessageComIR.cpp:65-68 | reads bit 12 of an ack word; `Ack.AddStateToAck`'s contract states that it reads back the state written |
| Ack.AddStateToAck | MessageComIR.cpp:58-64 | the status bit of the result reads back as `state` through `getStateFromAckValue`, and every other bit is the task's |
| Ack.CheckAck | MessageComIR.cpp:69-78 | an ack validates for a task iff the task's bit 12 is clear and the ack is exactly the positive ack built from that task |
| Ack.ValidAckIsPositiveEcho | MessageComIR.cpp:65-78 | "status bit set and, with it cleared, equal to the task" is equivalent to "the task has bit 12 clear and the ack is `addStateToAck(task, true)`", in both directions |
| Ack.AckFrame | MessageComIR.cpp:105-111 | the ack a receiver step sends is 13 bits wide; its status bit reads back as the verdict, and its other low 16 bits are the task's |
| Ack.AckHandshake | MessageComIR.cpp:58-78 | for a task below 4096: its positive ack validates for it; a negative ack never validates for any task; its positive ack validates for no other task |
| Wire.Low16Widen | MessageComIR.cpp:98-100 | a 16-bit value sent in a 32-bit frame comes back unchanged when the receiver narrows it to `uint16_t` |
| Crc.CcittUpdate | MessageComIR.cpp:91 | avr-libc's update step in the form its header gives; `Crc.CcittUpdateIsPolynomialStep` proves it is the polynomial division step |
| Crc.CcittUpdateIsPolynomialStep | MessageComIR.cpp:91 | the update step calcCrc applies (avr-libc's expression) equals xoring in the byte and shifting the register right eight times, subtracting polynomial 0x8408 whenever a one drops out |
| Crc.CrcWordBigEndian | MessageComIR.cpp:79-94 | the checksum of a word is four update steps from 0xFFFF over its bytes, bits 31-24 first and bits 7-0 last |
| Crc.CopyBit | MessageComIR.cpp:86-88 | one `bitWrite(tmp[k], i, bitRead(data, 8k+i))` extends by one bit the low bits `tmp[k]` shares with byte k of the word |
| Crc.CalcCrc | MessageComIR.cpp:79-94 | the nested loops leave byte k of the word (bits 8k to 8k+7) in `tmp[k]`, and the `while(n--)` loop folds `tmp[3]` down to `tmp[0]`, so the result is the CRC of the big-endian bytes |
| Sender.ReplyOf | MessageComIR.cpp:218-229 | receiveAck reports -1 (Missing) exactly when no 13-bit frame arrived |
| Sender.ValidReply | MessageComIR.cpp:218-229 | receiveAck reports 1 exactly when a 13-bit frame arrived whose low 16 bits are the positive ack for a task with bit 12 clear |
| Sender.TxStep | MessageComIR.cpp:114-193 | one sender step with its retry loop, shared by the four steps; `Sender.RetryRule`, `Sender.Exhaustion`, `Sender.AckedStep` and `Sender.NegativeAckFails` state what it does |
| Sender.Used | MessageComIR.cpp:116-130 | a step makes at least one and at most as many attempts as it has tries |
| Sender.RetryRule | MessageComIR.cpp:114-131 | a step makes n attempts, 1 <= n <= 5, and transmits its frames once per attempt. It consumes n receive results. Every attempt but the last found no 13-bit frame, and the last found one unless all tries were spent. The step succeeds iff that last frame validates, so a mismatching ack fails at once |
| Sender.Exhaustion | MessageComIR.cpp:114-131 | five receive results with no 13-bit frame make the step fail after transmitting its frames five times |
| Sender.AckedStep | MessageComIR.cpp:114-131 | a positive ack for a 12-bit task on the first receive call makes the step succeed after one transmission |
| Sender.NegativeAckFails | MessageComIR.cpp:124-126 | a negative ack, whatever task it echoes, fails the step after one attempt, with no retry |
| Sender.LostAck | MessageComIR.cpp:114-131 | against a peer that acknowledges a repeated frame, a lost first ack followed by the positive ack makes the step succeed after transmitting its frames twice |
| Sender.TxUnits | MessageComIR.cpp:195-214 | steps run in turn, each after the previous succeeded; `Sender.FrameOrder` and `Sender.TxUnitsAppend` state its frame order and abort rule |
| Sender.TxMessage | MessageComIR.cpp:195-214 | `send` as the run of its steps over the first `quantity` words; `Sender.StagedMessage` equates it with the code's nesting, and `Sender.SilentPeer` and `Loopback.SenderAcked` state its outcome |
| Sender.TxStaged | MessageComIR.cpp:197-213 | `send`'s nested if-chain, step by step; `Sender.StagedMessage` proves it equals the run of the message's steps |
| Sender.FrameOrder | MessageComIR.cpp:195-214 | a run of steps transmits only a prefix of the steps, in order. Each step's frames go out once per attempt (1 to 5 times). Every step but the last one run succeeded. The run succeeds iff every step ran and the last succeeded, so nothing of a later step is sent after a failure |
| Sender.TxUnitsAppend | MessageComIR.cpp:195-214 | a run split in two: the second part runs only if the first succeeded, and starts where the first left the channel |
| Sender.StagedMessage | MessageComIR.cpp:195-214 | the run of a message's steps equals `send`'s nested code: task, then quantity, then the data steps, then the terminator, each only after the previous succeeded |
| Sender.AckedRun | MessageComIR.cpp:195-214 | over a link that acks every step positively, a 12-bit task's run succeeds with each step's frames sent once, in order, and consumes one ack per step |
| Sender.SilentPeer | MessageComIR.cpp:195-214 | against a silent peer `send` fails in its first step, having sent only the task frame, five times |
| Receiver.RxTask | MessageComIR.cpp:231-242 | a 12-bit frame is answered with the positive ack echoing its low 16 bits, which are the task. Anything else yields task 0 and the negative ack for 0xBAD. One receive call either way |
| Receiver.RxQuantity | MessageComIR.cpp:243-255 | a 14-bit frame yields its low 16 bits and the positive ack; anything else yields 0 and the negative ack for the task |
| Receiver.RxTerm | MessageComIR.cpp:256-268 | the ack is positive iff a 15-bit frame arrived (whatever its value); the step succeeds iff that frame is 0xE2D |
| Receiver.RxChecksum | MessageComIR.cpp:269-281 | the ack is positive iff a 16-bit frame arrived; the step succeeds iff its 32-bit value equals the expected checksum |
| Receiver.RxData | MessageComIR.cpp:282-293 | a word is stored iff a 32-bit frame arrived, and it is that frame's value. The step then consumes two receive results and the ack is the checksum step's. Otherwise it consumes one and sends a negative ack. It succeeds iff a 32-bit frame is followed by the 16-bit frame of its CRC |
| Receiver.RxWords | MessageComIR.cpp:331-334 | the data loop stores at most `quantity` words, and all of them when it succeeds |
| Receiver.RxMessage | MessageComIR.cpp:323-341 | `receive` never stores more than 64 words |
| Receiver.WordFramesDelivered | MessageComIR.cpp:171-193 | the frames a receiver reads for its data steps are those the sender's data steps transmit (word, then its CRC, per word), delivered in order, and the converse |
| Receiver.WordsSucceed | MessageComIR.cpp:331-334 | the data loop succeeds iff its n words arrive each followed by its CRC; it then sends n positive acks and consumes 2n frames |
| Receiver.WordsMatch | MessageComIR.cpp:331-334 | on the frames of n words each with its CRC, the data loop stores exactly those words |
| Receiver.RepeatedTask | MessageComIR.cpp:243-255 | a task frame received twice is answered first with the positive ack, then by the quantity step with the negative ack, and `receive` fails with quantity 0 and nothing stored |
| Receiver.Sound | MessageComIR.cpp:323-341 | `receive` succeeds only on an accepted message. That is a nonzero task, a quantity from 1 to 64, that many words each followed by its CRC, and the terminator 0xE2D. It then reports that message's task, quantity and words and consumes exactly its frames |
| Receiver.Complete | MessageComIR.cpp:323-341 | on an accepted message `receive` succeeds, reports task, quantity and words, answers every step with the positive ack for the task, and consumes exactly its frames |
| Receiver.WriteDiscipline | MessageComIR.cpp:323-341 | the quantity is written back iff a nonzero task arrived. A quantity of 0 or above 64 fails before any word is stored. At most `quantity` words are stored, in order, each from a data frame. Each but the last passed its checksum; the last may be the word whose checksum step failed |
| Receiver.LoopWritten | MessageComIR.cpp:328-334 | once a quantity from 1 to 64 arrived, what `receive` stores is what its data loop stores |
| Receiver.WordsStored | MessageComIR.cpp:331-334 | every word the data loop stores came from a 32-bit frame, in order, and each but the last was followed by the 16-bit frame of its CRC |
| Endpoint.MessageComIR.constructor | MessageComIR.cpp:51-55 | a new endpoint will receive the given script and has transmitted nothing |
| Endpoint.MessageComIR.Recv | MessageComIR.cpp:296-320 | one receive call reports the next result, or nothing when none is left, and consumes it |
| Endpoint.MessageComIR.Snd | MessageComIR.cpp:98-103 | appends one frame with its value and bit-width to what the endpoint transmitted |
| Endpoint.MessageComIR.SendAck | MessageComIR.cpp:105-111 | transmits exactly one 13-bit frame: the task with the verdict in bit 12 |
| Endpoint.MessageComIR.ReceiveAck | MessageComIR.cpp:218-229 | one receive call. It returns -1 when no 13-bit frame arrived, otherwise 1 or 0 as checkAck judges its low 16 bits, and transmits nothing |
| Endpoint.MessageComIR.SendTask | MessageComIR.cpp:114-131 | its verdict, transmissions and receive calls are `TxStep` of the task frame, so `Sender.RetryRule` holds of it |
| Endpoint.MessageComIR.SendQuantity | MessageComIR.cpp:132-150 | as SendTask, with the quantity in a 14-bit frame and the ack checked against the task |
| Endpoint.MessageComIR.SendTerm | MessageComIR.cpp:151-169 | as SendTask, with 0xE2D in a 15-bit frame |
| Endpoint.MessageComIR.SendDataAndChecksum | MessageComIR.cpp:171-193 | as SendTask, each attempt transmitting the word (32 bits) and then its CRC (16 bits) |
| Endpoint.MessageComIR.SndWord | MessageComIR.cpp:177-182 | transmits the word, then the checksum `calcCrc` computes for it |
| Endpoint.MessageComIR.Send | MessageComIR.cpp:195-214 | its verdict, transmissions and receive calls are the run of the message's steps over the first `quantity` words, so `Sender.FrameOrder` holds of it |
| Endpoint.MessageComIR.SendWords | MessageComIR.cpp:201-206 | the data loop transmits and consumes what the run of the words' data steps does, stopping at the first failure |
| Endpoint.MessageComIR.ReceiveTask | MessageComIR.cpp:231-242 | returns the task `RxTask` yields and transmits its one ack |
| Endpoint.MessageComIR.ReceiveQuantity | MessageComIR.cpp:243-255 | returns the quantity `RxQuantity` yields and transmits its one ack |
| Endpoint.MessageComIR.ReceiveTerm | MessageComIR.cpp:256-268 | returns `RxTerm`'s verdict and transmits its one ack |
| Endpoint.MessageComIR.ReceiveChecksum | MessageComIR.cpp:269-281 | returns `RxChecksum`'s verdict and transmits its one ack |
| Endpoint.MessageComIR.ReceiveDataAndChecksum | MessageComIR.cpp:282-293 | writes the received word at `data[at]` and nowhere else, and only when a 32-bit frame arrived. It returns `RxData`'s verdict and transmits one ack |
| Endpoint.MessageComIR.Receive | MessageComIR.cpp:323-341 | returns `receive`'s verdict and task. The quantity out-parameter keeps its old value unless a nonzero task arrived. The words go into `data[0..]` and the rest of `data` is untouched. So `Receiver.Sound`, `Receiver.Complete` and `Receiver.WriteDiscipline` hold of it |
| Endpoint.MessageComIR.ReceiveAfterTask | MessageComIR.cpp:328-339 | after a nonzero task, reads the quantity and, when it is 1 to 64, the message; the end state is what `receive` reports |
| Endpoint.MessageComIR.ReceiveBody | MessageComIR.cpp:331-337 | after an accepted quantity, the data loop and then the terminator step; the end state is what `receive` reports |
| Endpoint.MessageComIR.ReceiveWords | MessageComIR.cpp:331-334 | the data loop stores the words `RxWords` yields into `data[0..]`, leaves the rest of `data` alone, and transmits one ack per step |
| Loopback.UnitsAreFrames | MessageComIR.cpp:195-214 | the steps of `send` laid end to end are: task, quantity, each word with its CRC, terminator |
| Loopback.SenderAcked | MessageComIR.cpp:195-214 | fed the receiver's acks for an accepted message, `send` succeeds, transmits each frame once and consumes every ack |
| Loopback.SentPrefix | MessageComIR.cpp:195-214 | over the loopback `send` of a longer buffer transmits the frames of its first `quantity` words |
| Loopback.FramesEncode | MessageComIR.cpp:323-341 | the frames `send` transmits for a nonzero task and 1 to 64 words, delivered in order, are a message the receiver accepts |
| Loopback.ReceiverAccepts | MessageComIR.cpp:323-341 | on those frames `receive` succeeds, reports task, quantity and words, acks every step positively and consumes every frame |
| Loopback.LostTaskAck | MessageComIR.cpp:114-131 | when the receiver's task ack is lost, the repeated task frame draws a negative ack, and `send` fails after two task frames |
| Loopback.RoundTrip | MessageComIR.cpp:195-341 | with 1 <= task < 4096 and 1 <= quantity <= 64, `send` and `receive` both succeed. The receiver recovers task, quantity and every word, and its acks are exactly those the sender consumed |
| Loopback.Connect | MessageComIR.cpp:195-341 | two endpoints: `send` on one, fed as replies the acks of an accepting receiver; `receive` on the other, fed the first one's frames. Both return true, the receiver's task, quantity and `data[0..quantity-1]` equal the sender's, and the acks the receiver transmits are exactly the replies the sender was fed |

## Left out

- `recv`'s polling loop (MessageComIR.cpp:296-320): `enableIRIn`, `resume` and up to
  5 × 1000 calls to `decode` are IRremote hardware plumbing. A receive call is one step
  that reports the next entry of the inbox, or nothing when it is empty.
- `snd`'s modulation (MessageComIR.cpp:98-103): `sendSony` is a foreign IRremote call. A
  transmission appends (value, bit-width) to the outbox. Truncation of the value to the
  frame width on the air is not modelled. Values are carried as 32 bits, and the receiver
  narrows task and quantity to 16 bits as the code does.
- Every `delay(...)`: timing only, with no effect on any result.
- Endpoint.MessageComIR.constructor: the IRremote handles it stores (MessageComIR.cpp:51-55)
  are replaced by the abstract channel state.
- Endpoint.MessageComIR.Receive: requires a buffer of at least 64 words. The code writes
  up to `quantity` words into a caller-owned pointer and trusts the caller to supply that
  space.
- util/crc16.h is not part of this model. Its `_crc_ccitt_update` is written out in
  `Crc.CcittUpdate` in the form avr-libc documents it.
- MessageComIR.h holds declarations only. Its integer widths are kept: `uint16_t` as
  `bv16` and `long` as 32 bits.
- `long` is signed in the code. Data words are modelled as `bv32`, the same 32 bits the
  transport carries, so sign plays no part.
- Concurrency: both roles run strictly one after the other, and simultaneous transmission
  is outside the protocol.

/** Frames, protocol constants and the abstract receive channel shared by both roles of
    MessageComIR.

    The infrared transport only knows "send a value tagged with a bit-width" and "report the
    next decoded (value, bit-width), or nothing within the poll window". What successive
    receive calls report is modelled as an `Inbox`: a sequence of such results, one consumed
    per call. An exhausted inbox reports nothing, as a silent peer would. */
module Wire {

  datatype Option<+T> = None | Some(value: T)

  /** One transmission: the value the transport decoded (an `unsigned long`, 32 bits on the
      AVR) and the bit-width it was sent with. The width tells the kinds of frames apart. */
  datatype Frame = Frame(value: bv32, bits: nat)

  // Bit-width of each kind of frame.
  const TaskBits: nat := 12
  const AckBits: nat := 13
  const QuantityBits: nat := 14
  const TermBits: nat := 15
  const ChecksumBits: nat := 16
  const DataBits: nat := 32

  /** Attempts a sender step makes before it gives up. */
  const MaxTry: nat := 5
  /** Largest number of data words a receiver accepts. */
  const MaxQuantity: nat := 64
  /** Value of the terminator frame. */
  const TermValue: bv32 := 0xE2D
  /** Task echoed in the negative ack sent when no task frame arrived. */
  const BadTask: bv16 := 0xBAD

  /** What successive receive calls report, in order. */
  type Inbox = seq<Option<Frame>>

  /** What the next receive call reports. */
  function Head(inbox: Inbox): Option<Frame>
  {
    if |inbox| == 0 then None else inbox[0]
  }

  /** What remains for later receive calls after one call. */
  function Tail(inbox: Inbox): Inbox
  {
    if |inbox| == 0 then [] else inbox[1..]
  }

  /** What remains after `n` receive calls. */
  function Drop(inbox: Inbox, n: nat): Inbox
  {
    if n <= |inbox| then inbox[n..] else []
  }

  /** What the receive call numbered `j` (from 0) reports. */
  function Reply(inbox: Inbox, j: nat): Option<Frame>
  {
    Head(Drop(inbox, j))
  }

  /** A frame arrived, and with the given bit-width. */
  predicate HasWidth(r: Option<Frame>, bits: nat)
  {
    r.Some? && r.value.bits == bits
  }

  /** The transport's 32-bit value narrowed to the `uint16_t` the protocol code keeps. */
  function Low16(v: bv32): bv16
  {
    (v & 0xFFFF) as bv16
  }

  /** A lossless link: every frame sent is reported, in order, by the peer's receive calls. */
  function Delivered(frames: seq<Frame>): (inbox: Inbox)
    ensures |inbox| == |frames|
    ensures forall i :: 0 <= i < |frames| ==> inbox[i] == Some(frames[i])
  {
    if frames == [] then [] else [Some(frames[0])] + Delivered(frames[1..])
  }

  /** `n` copies of `s`, one after the other. */
  function Repeat<T>(s: seq<T>, n: nat): seq<T>
  {
    if n == 0 then [] else s + Repeat(s, n - 1)
  }

  lemma TailIsDrop(inbox: Inbox)
    ensures Tail(inbox) == Drop(inbox, 1)
  {
  }

  lemma {:induction false} DropDrop(inbox: Inbox, a: nat, b: nat)
    ensures Drop(Drop(inbox, a), b) == Drop(inbox, a + b)
  {
  }

  lemma DropTail(inbox: Inbox, n: nat)
    ensures Drop(Tail(inbox), n) == Drop(inbox, n + 1)
    ensures Reply(Tail(inbox), n) == Reply(inbox, n + 1)
  {
  }

  /** A 16-bit value sent in a 32-bit frame comes back unchanged when narrowed again. */
  lemma Low16Widen(x: bv16)
    ensures Low16(x as bv32) == x
  {
  }

  lemma DeliveredAppend(a: seq<Frame>, b: seq<Frame>)
    ensures Delivered(a + b) == Delivered(a) + Delivered(b)
  {
  }
}

/** Acknowledgment words (MessageComIR.cpp, addStateToAck, getStateFromAckValue, checkAck).

    An ack echoes a task value and carries the receiver's verdict in bit 12, the top bit of
    the 13-bit ack frame: set for success, clear for failure. */
module Ack {
  import opened Wire

  /** Bit 12 of a 16-bit word. */
  const StatusBit: bv16 := 0x1000

  /** Reads the status bit of an ack word. */
  predicate GetStateFromAckValue(ack: bv16)
  {
    ack & StatusBit != 0
  }

  /** `task` with bit 12 set to `state`; every other bit is `task`'s. */
  function AddStateToAck(task: bv16, state: bool): (ack: bv16)
    ensures GetStateFromAckValue(ack) == state
    ensures ack & !StatusBit == task & !StatusBit
  {
    if state then
      var ack := task | StatusBit;
      StatusSet(task, ack);
      ack
    else
      var ack := task & !StatusBit;
      StatusCleared(task, ack);
      ack
  }

  lemma StatusSet(task: bv16, ack: bv16)
    requires ack == task | StatusBit
    ensures GetStateFromAckValue(ack)
    ensures ack & !StatusBit == task & !StatusBit
  {
  }

  lemma StatusCleared(task: bv16, ack: bv16)
    requires ack == task & !StatusBit
    ensures !GetStateFromAckValue(ack)
    ensures ack & !StatusBit == task & !StatusBit
  {
  }

  /** An ack validates for `task` when its status bit is set and, with that bit cleared, it
      equals `task`. So only a task whose bit 12 is clear can ever be acknowledged, and then
      only by the positive ack built from it. */
  predicate CheckAck(ack: bv16, task: bv16)
    ensures CheckAck(ack, task) <==> task & StatusBit == 0 && ack == AddStateToAck(task, true)
  {
    ValidAckIsPositiveEcho(ack, task);
    GetStateFromAckValue(ack) && ack & !StatusBit == task
  }

  lemma ValidAckIsPositiveEcho(ack: bv16, task: bv16)
    ensures (GetStateFromAckValue(ack) && ack & !StatusBit == task)
        <==> (task & StatusBit == 0 && ack == AddStateToAck(task, true))
  {
    if GetStateFromAckValue(ack) && ack & !StatusBit == task {
      SetBitRestores(ack);
      ClearedBitIsClear(ack);
    }
    if task & StatusBit == 0 && ack == AddStateToAck(task, true) {
      SetThenClear(task);
    }
  }

  lemma SetBitRestores(x: bv16)
    requires x & StatusBit != 0
    ensures (x & !StatusBit) | StatusBit == x
  {
  }

  lemma ClearedBitIsClear(x: bv16)
    ensures (x & !StatusBit) & StatusBit == 0
  {
  }

  lemma SetThenClear(x: bv16)
    requires x & StatusBit == 0
    ensures (x | StatusBit) & !StatusBit == x
  {
  }

  /** The ack frame a receiver step sends (MessageComIR.cpp, sendAck). */
  function AckFrame(task: bv16, state: bool): (f: Frame)
    ensures f.bits == AckBits
    ensures GetStateFromAckValue(Low16(f.value)) == state
    ensures Low16(f.value) & !StatusBit == task & !StatusBit
  {
    Low16Widen(AddStateToAck(task, state));
    Frame(AddStateToAck(task, state) as bv32, AckBits)
  }

  /** The handshake the protocol relies on: a positive ack validates for the task it echoes
      when that task fits in 12 bits, a negative ack never validates, and a positive ack for
      a 12-bit task validates for no other task. */
  lemma AckHandshake(task: bv16, other: bv16)
    requires task < 0x1000
    ensures CheckAck(AddStateToAck(task, true), task)
    ensures !CheckAck(AddStateToAck(task, false), other)
    ensures other != task ==> !CheckAck(AddStateToAck(task, true), other)
  {
  }
}

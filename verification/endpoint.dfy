/** A MessageComIR endpoint (MessageComIR.cpp): the protocol's methods over an abstract
    channel. The IRremote transport is replaced by the endpoint's own state: `inbox`, what
    its receive calls will report, and `outbox`, every frame it has transmitted. Each
    method is proved to do what the functions of `Sender` and `Receiver` say. */
module Endpoint {
  import opened Wire
  import opened Ack
  import opened Crc
  import opened Sender
  import opened Receiver

  class MessageComIR {
    /** What this endpoint's remaining receive calls will report, in order. */
    var inbox: Inbox
    /** Every frame this endpoint has transmitted, in order. */
    var outbox: seq<Frame>

    /** An endpoint whose receive calls will report `script`. */
    constructor (script: Inbox)
      ensures inbox == script && outbox == []
    {
      inbox := script;
      outbox := [];
    }

    // The channel: recv reports the next decoded frame or nothing, snd transmits one.

    method Recv() returns (r: Option<Frame>)
      modifies this
      ensures r == Head(old(inbox)) && inbox == Tail(old(inbox)) && outbox == old(outbox)
    {
      r := Head(inbox);
      inbox := Tail(inbox);
    }

    method Snd(value: bv32, bits: nat)
      modifies this
      ensures outbox == old(outbox) + [Frame(value, bits)] && inbox == old(inbox)
    {
      outbox := outbox + [Frame(value, bits)];
    }

    /** sendAck: transmits the task with the verdict in its status bit, as a 13-bit frame. */
    method SendAck(task: bv16, state: bool)
      modifies this
      ensures outbox == old(outbox) + [AckFrame(task, state)] && inbox == old(inbox)
    {
      Snd(AddStateToAck(task, state) as bv32, AckBits);
    }

    /** receiveAck: -1 when no 13-bit frame arrived, otherwise 1 or 0 as checkAck judges
        the frame's low 16 bits against `rawTask`. */
    method ReceiveAck(rawTask: bv16) returns (ackState: int)
      modifies this
      ensures inbox == Tail(old(inbox)) && outbox == old(outbox)
      ensures ackState == match ReplyOf(Head(old(inbox)), rawTask)
                          case Missing => -1
                          case Checked(valid) => if valid then 1 else 0
    {
      var r := Recv();
      if r.Some? && r.value.bits == AckBits {
        if CheckAck(Low16(r.value.value), rawTask) {
          return 1;
        }
        return 0;
      }
      return -1;
    }

    /** sendTask: up to five attempts, each transmitting the task as a 12-bit frame and
        making one receive call. */
    method SendTask(task: bv16) returns (ok: bool)
      modifies this
      ensures var r := TxStep(TaskUnit(task), task, old(inbox), MaxTry);
              ok == r.ok && outbox == old(outbox) + r.out && inbox == r.rest
    {
      RetryStart(TaskUnit(task), task, inbox, outbox);
      var atry := 0;
      while atry < MaxTry
        invariant atry <= MaxTry && Retrying(TaskUnit(task), task, old(inbox), old(outbox), atry, inbox, outbox)
      {
        ghost var before := inbox;
        ghost var prior := outbox;
        Snd(task as bv32, TaskBits);
        var ackState := ReceiveAck(task);
        if ackState != -1 {
          AckEndsStep(TaskUnit(task), task, old(inbox), old(outbox), atry, before, prior);
          return ackState == 1;
        }
        RetryMissing(TaskUnit(task), task, old(inbox), old(outbox), atry, before, prior);
        atry := atry + 1;
      }
      Exhausted(TaskUnit(task), task, old(inbox), old(outbox), inbox, outbox);
      return false;
    }

    /** sendQuantity: as sendTask, with the quantity in a 14-bit frame; the ack must echo
        the task. */
    method SendQuantity(quantity: bv16, task: bv16) returns (ok: bool)
      modifies this
      ensures var r := TxStep(QuantityUnit(quantity), task, old(inbox), MaxTry);
              ok == r.ok && outbox == old(outbox) + r.out && inbox == r.rest
    {
      RetryStart(QuantityUnit(quantity), task, inbox, outbox);
      var atry := 0;
      while atry < MaxTry
        invariant atry <= MaxTry && Retrying(QuantityUnit(quantity), task, old(inbox), old(outbox), atry, inbox, outbox)
      {
        ghost var before := inbox;
        ghost var prior := outbox;
        Snd(quantity as bv32, QuantityBits);
        var ackState := ReceiveAck(task);
        if ackState != -1 {
          AckEndsStep(QuantityUnit(quantity), task, old(inbox), old(outbox), atry, before, prior);
          return ackState == 1;
        }
        RetryMissing(QuantityUnit(quantity), task, old(inbox), old(outbox), atry, before, prior);
        atry := atry + 1;
      }
      Exhausted(QuantityUnit(quantity), task, old(inbox), old(outbox), inbox, outbox);
      return false;
    }

    /** sendTerm: as sendTask, with 0xE2D in a 15-bit frame. */
    method SendTerm(task: bv16) returns (ok: bool)
      modifies this
      ensures var r := TxStep(TermUnit(), task, old(inbox), MaxTry);
              ok == r.ok && outbox == old(outbox) + r.out && inbox == r.rest
    {
      RetryStart(TermUnit(), task, inbox, outbox);
      var atry := 0;
      while atry < MaxTry
        invariant atry <= MaxTry && Retrying(TermUnit(), task, old(inbox), old(outbox), atry, inbox, outbox)
      {
        ghost var before := inbox;
        ghost var prior := outbox;
        Snd(TermValue, TermBits);
        var ackState := ReceiveAck(task);
        if ackState != -1 {
          AckEndsStep(TermUnit(), task, old(inbox), old(outbox), atry, before, prior);
          return ackState == 1;
        }
        RetryMissing(TermUnit(), task, old(inbox), old(outbox), atry, before, prior);
        atry := atry + 1;
      }
      Exhausted(TermUnit(), task, old(inbox), old(outbox), inbox, outbox);
      return false;
    }

    /** sendDataAndChecksum: each attempt transmits the word as a 32-bit frame and then
        its checksum, computed by calcCrc, as a 16-bit frame. */
    method SendDataAndChecksum(data: bv32, task: bv16) returns (ok: bool)
      modifies this
      ensures var r := TxStep(DataUnit(data), task, old(inbox), MaxTry);
              ok == r.ok && outbox == old(outbox) + r.out && inbox == r.rest
    {
      RetryStart(DataUnit(data), task, inbox, outbox);
      var atry := 0;
      while atry < MaxTry
        invariant atry <= MaxTry && Retrying(DataUnit(data), task, old(inbox), old(outbox), atry, inbox, outbox)
      {
        ghost var before := inbox;
        ghost var prior := outbox;
        SndWord(data);
        var ackState := ReceiveAck(task);
        if ackState != -1 {
          AckEndsStep(DataUnit(data), task, old(inbox), old(outbox), atry, before, prior);
          return ackState == 1;
        }
        RetryMissing(DataUnit(data), task, old(inbox), old(outbox), atry, before, prior);
        atry := atry + 1;
      }
      Exhausted(DataUnit(data), task, old(inbox), old(outbox), inbox, outbox);
      return false;
    }

    /** One attempt's frames in sendDataAndChecksum: the word, then calcCrc's checksum. */
    method SndWord(data: bv32)
      modifies this
      ensures outbox == old(outbox) + DataUnit(data) && inbox == old(inbox)
    {
      Snd(data, DataBits);
      var crc := CalcCrc(data);
      Snd(crc as bv32, ChecksumBits);
    }

    /** send: task, quantity, each of the first `quantity` words of `data`, terminator,
        stopping at the first step that fails. */
    method Send(task: bv16, quantity: bv16, data: array<bv32>) returns (ok: bool)
      requires quantity as nat <= data.Length
      modifies this
      ensures var r := TxMessage(task, quantity, data[..], old(inbox));
              ok == r.ok && outbox == old(outbox) + r.out && inbox == r.rest
    {
      ok := SendTask(task);
      if ok {
        ok := SendQuantity(quantity, task);
        if ok {
          ok := SendWords(task, quantity as nat, data);
          if ok {
            ok := SendTerm(task);
          }
        }
      }
      SendOutcome(task, quantity, data[..], old(inbox), old(outbox), ok, inbox, outbox);
    }

    /** The loop of send: sendDataAndChecksum for each of the first `n` words of `data`
        (`n` is the quantity), stopping at the first that fails. */
    method SendWords(task: bv16, n: nat, data: array<bv32>) returns (ok: bool)
      requires n <= data.Length
      modifies this
      ensures var w := TxUnits(DataUnits(data[..n]), task, old(inbox));
              ok == w.ok && outbox == old(outbox) + w.out && inbox == w.rest
    {
      ghost var words := data[..n];
      ghost var sent: seq<Frame> := [];
      WordsStart(words, task, inbox, outbox);
      var i: nat := 0;
      while i < n
        invariant i <= n && |words| == n
        invariant WordsSent(words, task, old(inbox), old(outbox), i, sent, inbox, outbox)
      {
        ok, sent := SendWordAt(data, i, task, words, old(inbox), old(outbox), sent);
        if !ok {
          return;
        }
        i := i + 1;
      }
      WordsDone(words, task, old(inbox), old(outbox), sent, inbox, outbox);
      return true;
    }

    /** One pass of send's data loop: the step for word `i`. */
    method SendWordAt(data: array<bv32>, i: nat, task: bv16, ghost words: seq<bv32>,
                      ghost inbox0: Inbox, ghost outbox0: seq<Frame>, ghost sent: seq<Frame>)
      returns (ok: bool, ghost sent': seq<Frame>)
      requires i < |words| && i < data.Length && words[i] == data[i]
      requires WordsSent(words, task, inbox0, outbox0, i, sent, inbox, outbox)
      modifies this
      ensures ok ==> WordsSent(words, task, inbox0, outbox0, i + 1, sent', inbox, outbox)
      ensures var w := TxUnits(DataUnits(words), task, inbox0);
              !ok ==> !w.ok && outbox == outbox0 + w.out && inbox == w.rest
    {
      ghost var before := inbox;
      ghost var prior := outbox;
      ok := SendDataAndChecksum(data[i], task);
      WordSent(words, task, inbox0, outbox0, i, sent, before, prior, ok, inbox, outbox);
      sent' := sent + TxStep(DataUnit(words[i]), task, before, MaxTry).out;
    }

    /** receiveTask: one receive call; a 12-bit frame is acknowledged positively and its
        low 16 bits returned, anything else gets the negative ack for 0xBAD and 0. */
    method ReceiveTask() returns (task: bv16)
      modifies this
      ensures var s := RxTask(old(inbox));
              task == s.value && outbox == old(outbox) + [s.ack] && inbox == s.rest
    {
      var r := Recv();
      if r.Some? && r.value.bits == TaskBits {
        SendAck(Low16(r.value.value), true);
        return Low16(r.value.value);
      }
      SendAck(BadTask, false);
      return 0;
    }

    /** receiveQuantity: one receive call; a 14-bit frame is acknowledged positively and
        its low 16 bits returned, anything else gets a negative ack and 0. */
    method ReceiveQuantity(task: bv16) returns (quantity: bv16)
      modifies this
      ensures var s := RxQuantity(task, old(inbox));
              quantity == s.value && outbox == old(outbox) + [s.ack] && inbox == s.rest
    {
      var r := Recv();
      if r.Some? && r.value.bits == QuantityBits {
        SendAck(task, true);
        return Low16(r.value.value);
      }
      SendAck(task, false);
      return 0;
    }

    /** receiveTerm: one receive call; a 15-bit frame is acknowledged positively, then
        compared with 0xE2D. */
    method ReceiveTerm(task: bv16) returns (ok: bool)
      modifies this
      ensures var s := RxTerm(task, old(inbox));
              ok == s.value && outbox == old(outbox) + [s.ack] && inbox == s.rest
    {
      var r := Recv();
      if r.Some? && r.value.bits == TermBits {
        SendAck(task, true);
        return r.value.value == TermValue;
      }
      SendAck(task, false);
      return false;
    }

    /** receiveChecksum: one receive call; a 16-bit frame is acknowledged positively,
        then compared with `checksum`. */
    method ReceiveChecksum(checksum: bv16, task: bv16) returns (ok: bool)
      modifies this
      ensures var s := RxChecksum(checksum, task, old(inbox));
              ok == s.value && outbox == old(outbox) + [s.ack] && inbox == s.rest
    {
      var r := Recv();
      if r.Some? && r.value.bits == ChecksumBits {
        SendAck(task, true);
        return r.value.value == checksum as bv32;
      }
      SendAck(task, false);
      return false;
    }

    /** receiveDataAndChecksum: a 32-bit frame's value is stored in `data[at]` before its
        checksum step runs; anything else leaves `data` alone and gets a negative ack. */
    method ReceiveDataAndChecksum(data: array<bv32>, at: nat, task: bv16) returns (ok: bool)
      requires at < data.Length
      modifies this, data
      ensures var d := RxData(task, old(inbox));
              && ok == d.ok && outbox == old(outbox) + [d.ack] && inbox == d.rest
              && data[..] == if d.word.Some? then old(data[..])[at := d.word.value] else old(data[..])
    {
      var r := Recv();
      if r.Some? && r.value.bits == DataBits {
        data[at] := r.value.value;
        var crc := CalcCrc(data[at]);
        ok := ReceiveChecksum(crc, task);
        return;
      }
      SendAck(task, false);
      return false;
    }

    /** receive: the task is always written back; the quantity only once a nonzero task
        arrived (otherwise it keeps `quantityIn`); words are stored from `data[0]` on. */
    method Receive(data: array<bv32>, quantityIn: bv16) returns (ok: bool, task: bv16, quantity: bv16)
      requires data.Length >= MaxQuantity
      modifies this, data
      ensures var r := RxMessage(old(inbox));
              && ok == r.ok && task == r.task
              && quantity == (if r.quantity.Some? then r.quantity.value else quantityIn)
              && outbox == old(outbox) + r.out && inbox == r.rest
              && data[..] == r.words + old(data[..])[|r.words|..]
    {
      ghost var inbox0, outbox0, data0 := inbox, outbox, data[..];
      task := ReceiveTask();
      if task > 0 {
        ok, quantity := ReceiveAfterTask(data, task, quantityIn, inbox0, outbox0, data0);
      } else {
        ok, quantity := false, quantityIn;
        TaskRefused(inbox0, outbox0, data0, quantityIn, inbox, outbox, data[..]);
      }
    }

    /** receive after a nonzero task: the quantity, then the message if it is 1 to 64. */
    method ReceiveAfterTask(data: array<bv32>, task: bv16, ghost quantityIn: bv16, ghost inbox0: Inbox,
                            ghost outbox0: seq<Frame>, ghost data0: seq<bv32>)
      returns (ok: bool, quantity: bv16)
      requires data.Length >= MaxQuantity && data[..] == data0
      requires var t := RxTask(inbox0);
               t.value == task && task != 0 && inbox == t.rest && outbox == outbox0 + [t.ack]
      modifies this, data
      ensures Reported(inbox0, outbox0, data0, quantityIn, ok, task, quantity, inbox, outbox, data[..])
    {
      quantity := ReceiveQuantity(task);
      var n := quantity as nat;
      if 0 < n <= MaxQuantity {
        ok := ReceiveBody(data, task, quantity, n, quantityIn, inbox0, outbox0, data0);
      } else {
        ok := false;
        QuantityRefused(inbox0, outbox0, data0, quantityIn, task, quantity, inbox, outbox, data[..]);
      }
    }

    /** receive after an accepted quantity: the data loop, then the terminator. */
    method ReceiveBody(data: array<bv32>, task: bv16, quantity: bv16, n: nat, ghost quantityIn: bv16,
                       ghost inbox0: Inbox, ghost outbox0: seq<Frame>, ghost data0: seq<bv32>)
      returns (ok: bool)
      requires data.Length >= MaxQuantity && data[..] == data0
      requires n == quantity as nat && 0 < n <= MaxQuantity
      requires var t := RxTask(inbox0);
               var q := RxQuantity(t.value, t.rest);
               && t.value == task && task != 0 && quantity == q.value
               && inbox == q.rest && outbox == outbox0 + [t.ack] + [q.ack]
      modifies this, data
      ensures Reported(inbox0, outbox0, data0, quantityIn, ok, task, quantity, inbox, outbox, data[..])
    {
      ok := ReceiveWords(data, n, task);
      if ok {
        ok := ReceiveTerm(task);
        MessageTaken(inbox0, outbox0, data0, quantityIn, n, ok, task, quantity, inbox, outbox, data[..]);
      } else {
        WordsRefused(inbox0, outbox0, data0, quantityIn, n, task, quantity, inbox, outbox, data[..]);
      }
    }

    /** The loop of receive: receiveDataAndChecksum into `data[0]`, `data[1]`, ... for
        `n` words (the quantity received), stopping at the first that fails. */
    method ReceiveWords(data: array<bv32>, n: nat, task: bv16) returns (ok: bool)
      requires n <= data.Length
      modifies this, data
      ensures var w := RxWords(task, n, old(inbox));
              && ok == w.ok && outbox == old(outbox) + w.acks && inbox == w.rest
              && data[..] == w.words + old(data[..])[|w.words|..]
    {
      ghost var inbox0, outbox0, data0 := inbox, outbox, data[..];
      ghost var total := RxWords(task, n, inbox0);
      ghost var stored: seq<bv32> := [];
      ghost var acks: seq<Frame> := [];
      WordsReceivedStart(task, n, total, inbox0, outbox0, data0);
      var i: nat := 0;
      while i < n
        invariant i <= n && |stored| == i
        invariant WordsProgress(true, task, n, total, outbox0, data0, stored, acks, inbox, outbox, data[..])
      {
        ok, stored, acks := ReceiveWordAt(data, i, task, n, total, outbox0, data0, stored, acks);
        if !ok {
          WordsOutcome(ok, task, n, total, inbox0, outbox0, data0, stored, acks, inbox, outbox, data[..]);
          return;
        }
        i := i + 1;
      }
      ok := true;
      WordsOutcome(ok, task, n, total, inbox0, outbox0, data0, stored, acks, inbox, outbox, data[..]);
    }

    /** One turn of receive's loop: receiveDataAndChecksum into `data[|stored|]`, and where
        that leaves the run of data steps. */
    method ReceiveWordAt(data: array<bv32>, i: nat, task: bv16, ghost n: nat, ghost total: Words,
                         ghost outbox0: seq<Frame>, ghost data0: seq<bv32>,
                         ghost stored: seq<bv32>, ghost acks: seq<Frame>)
      returns (ok: bool, ghost stored': seq<bv32>, ghost acks': seq<Frame>)
      requires i == |stored| < n
      requires WordsProgress(true, task, n, total, outbox0, data0, stored, acks, inbox, outbox, data[..])
      modifies this, data
      ensures ok ==> |stored'| == i + 1
      ensures WordsProgress(ok, task, n, total, outbox0, data0, stored', acks', inbox, outbox, data[..])
    {
      ghost var before := inbox;
      ghost var prior := outbox;
      ghost var held := data[..];
      ok := ReceiveDataAndChecksum(data, i, task);
      ghost var d := RxData(task, before);
      if ok {
        WordReceivedOk(task, n, total, outbox0, data0, stored, acks, before, prior, held, d, inbox, outbox, data[..]);
        stored', acks' := stored + [d.word.value], acks + [d.ack];
      } else {
        WordReceivedFails(task, n, total, outbox0, data0, stored, acks, before, prior, held, d, inbox, outbox, data[..]);
        stored', acks' := stored, acks;
      }
    }
  }

  /** `w` preceded by the words stored and the acks sent so far. */
  function Continue(words: seq<bv32>, acks: seq<Frame>, w: Words): Words
  {
    Words(w.ok, words + w.words, acks + w.acks, w.rest)
  }

  /** The state of a sender step after `atry` attempts that found no ack: each of them
      transmitted `unit`, and the step from here on ends as the whole step does. */
  ghost predicate Retrying(unit: seq<Frame>, task: bv16, inbox0: Inbox, outbox0: seq<Frame>, atry: nat,
                           inbox: Inbox, outbox: seq<Frame>)
    requires atry <= MaxTry
  {
    && outbox == outbox0 + Repeat(unit, atry)
    && TxStep(unit, task, inbox0, MaxTry) == After(Repeat(unit, atry), TxStep(unit, task, inbox, MaxTry - atry))
  }

  lemma RetryStart(unit: seq<Frame>, task: bv16, inbox: Inbox, outbox: seq<Frame>)
    ensures Retrying(unit, task, inbox, outbox, 0, inbox, outbox)
  {
    assert outbox + [] == outbox;
  }

  /** An attempt that found no ack leaves a step with one attempt fewer, having sent its
      frames once more. */
  lemma RetryMissing(unit: seq<Frame>, task: bv16, inbox0: Inbox, outbox0: seq<Frame>, atry: nat,
                     inbox: Inbox, prior: seq<Frame>)
    requires atry < MaxTry && !HasWidth(Head(inbox), AckBits)
    requires Retrying(unit, task, inbox0, outbox0, atry, inbox, prior)
    ensures Retrying(unit, task, inbox0, outbox0, atry + 1, Tail(inbox), prior + unit)
  {
    var rest := TxStep(unit, task, Tail(inbox), MaxTry - (atry + 1));
    StepMissing(unit, task, inbox, MaxTry - atry);
    RepeatSnoc(unit, atry);
    AfterAfter(Repeat(unit, atry), unit, rest);
    AppendAssoc(outbox0, Repeat(unit, atry), unit);
  }

  lemma StepMissing(unit: seq<Frame>, task: bv16, inbox: Inbox, tries: nat)
    requires tries > 0 && !HasWidth(Head(inbox), AckBits)
    ensures TxStep(unit, task, inbox, tries) == After(unit, TxStep(unit, task, Tail(inbox), tries - 1))
  {
  }

  lemma AfterAfter(a: seq<Frame>, b: seq<Frame>, r: TxResult)
    ensures After(a, After(b, r)) == After(a + b, r)
  {
    assert a + (b + r.out) == (a + b) + r.out;
  }

  lemma AppendAssoc(a: seq<Frame>, b: seq<Frame>, c: seq<Frame>)
    ensures a + b + c == a + (b + c)
  {
  }

  /** An attempt that found an ack ends the step with checkAck's verdict. */
  lemma AckEndsStep(unit: seq<Frame>, task: bv16, inbox0: Inbox, outbox0: seq<Frame>, atry: nat,
                    inbox: Inbox, prior: seq<Frame>)
    requires atry < MaxTry && HasWidth(Head(inbox), AckBits)
    requires Retrying(unit, task, inbox0, outbox0, atry, inbox, prior)
    ensures var r := TxStep(unit, task, inbox0, MaxTry);
            && r.ok == CheckAck(Low16(Head(inbox).value.value), task)
            && prior + unit == outbox0 + r.out
            && r.rest == Tail(inbox)
  {
    assert TxStep(unit, task, inbox, MaxTry - atry) == TxResult(CheckAck(Low16(Head(inbox).value.value), task), unit, Tail(inbox));
  }

  /** Five attempts without an ack end the step with failure. */
  lemma Exhausted(unit: seq<Frame>, task: bv16, inbox0: Inbox, outbox0: seq<Frame>,
                  inbox: Inbox, outbox: seq<Frame>)
    requires Retrying(unit, task, inbox0, outbox0, MaxTry, inbox, outbox)
    ensures var r := TxStep(unit, task, inbox0, MaxTry);
            !r.ok && outbox == outbox0 + r.out && inbox == r.rest
  {
  }

  /** What `send`'s nested calls leave behind is the run of the message's steps. */
  lemma SendOutcome(task: bv16, quantity: bv16, data: seq<bv32>, inbox0: Inbox, outbox0: seq<Frame>,
                    ok: bool, inbox: Inbox, outbox: seq<Frame>)
    requires quantity as int <= |data|
    requires var t := TxStep(TaskUnit(task), task, inbox0, MaxTry);
             var q := TxStep(QuantityUnit(quantity), task, t.rest, MaxTry);
             var w := TxUnits(DataUnits(data[..quantity]), task, q.rest);
             var e := TxStep(TermUnit(), task, w.rest, MaxTry);
             && (!t.ok ==> !ok && outbox == outbox0 + t.out && inbox == t.rest)
             && (t.ok && !q.ok ==> !ok && outbox == outbox0 + t.out + q.out && inbox == q.rest)
             && (t.ok && q.ok && !w.ok ==> !ok && outbox == outbox0 + t.out + q.out + w.out && inbox == w.rest)
             && (t.ok && q.ok && w.ok ==> ok == e.ok && outbox == outbox0 + t.out + q.out + w.out + e.out && inbox == e.rest)
    ensures var r := TxMessage(task, quantity, data, inbox0);
            ok == r.ok && outbox == outbox0 + r.out && inbox == r.rest
  {
    StagedMessage(task, quantity, data, inbox0);
    var t := TxStep(TaskUnit(task), task, inbox0, MaxTry);
    var q := TxStep(QuantityUnit(quantity), task, t.rest, MaxTry);
    var w := TxUnits(DataUnits(data[..quantity]), task, q.rest);
    var e := TxStep(TermUnit(), task, w.rest, MaxTry);
    AppendAssoc(outbox0, t.out, q.out);
    AppendAssoc(outbox0, t.out + q.out, w.out);
    AppendAssoc(outbox0, t.out + q.out + w.out, e.out);
  }

  /** The loop of `send` has sent the first `i` words, transmitting `sent`: the run of all
      data steps ends as the run of the rest does from here. */
  ghost predicate WordsSent(words: seq<bv32>, task: bv16, inbox0: Inbox, outbox0: seq<Frame>,
                            i: nat, sent: seq<Frame>, inbox: Inbox, outbox: seq<Frame>)
  {
    && i <= |words|
    && outbox == outbox0 + sent
    && TxUnits(DataUnits(words), task, inbox0) == After(sent, TxUnits(DataUnits(words[i..]), task, inbox))
  }

  lemma WordsStart(words: seq<bv32>, task: bv16, inbox: Inbox, outbox: seq<Frame>)
    ensures WordsSent(words, task, inbox, outbox, 0, [], inbox, outbox)
  {
    assert words[0..] == words;
    assert outbox + [] == outbox;
  }

  /** One more word: its step either moves the loop on or ends the run of data steps. */
  lemma WordSent(words: seq<bv32>, task: bv16, inbox0: Inbox, outbox0: seq<Frame>, i: nat, sent: seq<Frame>,
                 inbox: Inbox, outbox: seq<Frame>, ok: bool, inbox': Inbox, outbox': seq<Frame>)
    requires i < |words| && WordsSent(words, task, inbox0, outbox0, i, sent, inbox, outbox)
    requires var s := TxStep(DataUnit(words[i]), task, inbox, MaxTry);
             ok == s.ok && outbox' == outbox + s.out && inbox' == s.rest
    ensures var s := TxStep(DataUnit(words[i]), task, inbox, MaxTry);
            ok ==> WordsSent(words, task, inbox0, outbox0, i + 1, sent + s.out, inbox', outbox')
    ensures var w := TxUnits(DataUnits(words), task, inbox0);
            !ok ==> !w.ok && outbox' == outbox0 + w.out && inbox' == w.rest
  {
    var s := TxStep(DataUnit(words[i]), task, inbox, MaxTry);
    WordsFrom(words, i, task, inbox);
    AppendAssoc(outbox0, sent, s.out);
    if ok {
      AfterAfter(sent, s.out, TxUnits(DataUnits(words[i + 1..]), task, s.rest));
    }
  }

  lemma WordsDone(words: seq<bv32>, task: bv16, inbox0: Inbox, outbox0: seq<Frame>, sent: seq<Frame>,
                  inbox: Inbox, outbox: seq<Frame>)
    requires WordsSent(words, task, inbox0, outbox0, |words|, sent, inbox, outbox)
    ensures var w := TxUnits(DataUnits(words), task, inbox0);
            w.ok && outbox == outbox0 + w.out && inbox == w.rest
  {
    assert words[|words|..] == [];
    assert sent + [] == sent;
  }

  /** The loop of `receive` has stored `stored` in the first slots of the buffer (which
      held `data0`) and sent `acks`: the run of all data steps, `total`, ends as the run
      of the rest does from here. */
  ghost predicate WordsReceived(task: bv16, n: nat, total: Words, outbox0: seq<Frame>, data0: seq<bv32>,
                                stored: seq<bv32>, acks: seq<Frame>, inbox: Inbox, outbox: seq<Frame>,
                                data: seq<bv32>)
  {
    && |stored| <= n <= |data0|
    && outbox == outbox0 + acks
    && data == stored + data0[|stored|..]
    && total == Continue(stored, acks, RxWords(task, n - |stored|, inbox))
  }

  /** The run of data steps is over and its outcome is `total`. */
  ghost predicate WordsEnded(total: Words, outbox0: seq<Frame>, data0: seq<bv32>,
                             inbox: Inbox, outbox: seq<Frame>, data: seq<bv32>)
  {
    && outbox == outbox0 + total.acks && inbox == total.rest
    && |total.words| <= |data0| && data == total.words + data0[|total.words|..]
  }

  lemma WordsReceivedStart(task: bv16, n: nat, total: Words, inbox: Inbox, outbox: seq<Frame>, data: seq<bv32>)
    requires n <= |data| && total == RxWords(task, n, inbox)
    ensures WordsReceived(task, n, total, outbox, data, [], [], inbox, outbox, data)
  {
    assert outbox + [] == outbox;
    assert [] + data[0..] == data;
    ContinueEmpty(total);
  }

  lemma ContinueEmpty(w: Words)
    ensures Continue([], [], w) == w
  {
    assert [] + w.words == w.words && [] + w.acks == w.acks;
  }

  /** A data step that succeeded moves the loop on. */
  lemma WordReceivedOk(task: bv16, n: nat, total: Words, outbox0: seq<Frame>, data0: seq<bv32>,
                       stored: seq<bv32>, acks: seq<Frame>, inbox: Inbox, outbox: seq<Frame>, data: seq<bv32>,
                       d: DataStep, inbox': Inbox, outbox': seq<Frame>, data': seq<bv32>)
    requires |stored| < n
    requires WordsReceived(task, n, total, outbox0, data0, stored, acks, inbox, outbox, data)
    requires d == RxData(task, inbox) && d.ok
    requires outbox' == outbox + [d.ack] && inbox' == d.rest
    requires data' == if d.word.Some? then data[|stored| := d.word.value] else data
    ensures d.word.Some?
    ensures WordsReceived(task, n, total, outbox0, data0, stored + [d.word.value], acks + [d.ack],
                          inbox', outbox', data')
  {
    var i := |stored|;
    WordsCons(task, n - i, inbox);
    var v := d.word.value;
    var w' := RxWords(task, n - i - 1, d.rest);
    ContinueCons(stored, acks, v, d.ack, w');
    AppendAssoc(outbox0, acks, [d.ack]);
    StoreNext(stored, data0, v);
  }

  /** A data step that failed ends the run of data steps, with whatever it stored. */
  lemma WordReceivedFails(task: bv16, n: nat, total: Words, outbox0: seq<Frame>, data0: seq<bv32>,
                          stored: seq<bv32>, acks: seq<Frame>, inbox: Inbox, outbox: seq<Frame>, data: seq<bv32>,
                          d: DataStep, inbox': Inbox, outbox': seq<Frame>, data': seq<bv32>)
    requires |stored| < n
    requires WordsReceived(task, n, total, outbox0, data0, stored, acks, inbox, outbox, data)
    requires d == RxData(task, inbox) && !d.ok
    requires outbox' == outbox + [d.ack] && inbox' == d.rest
    requires data' == if d.word.Some? then data[|stored| := d.word.value] else data
    ensures !total.ok && WordsEnded(total, outbox0, data0, inbox', outbox', data')
  {
    var i := |stored|;
    WordsStop(task, n - i, inbox);
    AppendAssoc(outbox0, acks, [d.ack]);
    if d.word.Some? {
      StoreNext(stored, data0, d.word.value);
    } else {
      assert stored + [] == stored;
    }
  }

  /** Writing `v` into the first free slot. */
  lemma StoreNext(stored: seq<bv32>, data0: seq<bv32>, v: bv32)
    requires |stored| < |data0|
    ensures (stored + data0[|stored|..])[|stored| := v] == (stored + [v]) + data0[|stored + [v]|..]
  {
  }

  lemma ContinueCons(stored: seq<bv32>, acks: seq<Frame>, v: bv32, ack: Frame, w: Words)
    ensures Continue(stored, acks, Words(w.ok, [v] + w.words, [ack] + w.acks, w.rest))
         == Continue(stored + [v], acks + [ack], w)
  {
    assert stored + ([v] + w.words) == stored + [v] + w.words;
    assert acks + ([ack] + w.acks) == acks + [ack] + w.acks;
  }

  /** Where `receive`'s loop stands: still going, with the state `WordsReceived` describes,
      or stopped by a failed step, with the outcome of the whole run. */
  ghost predicate WordsProgress(ok: bool, task: bv16, n: nat, total: Words, outbox0: seq<Frame>,
                                data0: seq<bv32>, stored: seq<bv32>, acks: seq<Frame>, inbox: Inbox,
                                outbox: seq<Frame>, data: seq<bv32>)
  {
    if ok then WordsReceived(task, n, total, outbox0, data0, stored, acks, inbox, outbox, data)
    else !total.ok && WordsEnded(total, outbox0, data0, inbox, outbox, data)
  }

  /** Wherever the loop stopped, its outcome is the run of `n` data steps. */
  lemma WordsOutcome(ok: bool, task: bv16, n: nat, total: Words, inbox0: Inbox, outbox0: seq<Frame>,
                     data0: seq<bv32>, stored: seq<bv32>, acks: seq<Frame>, inbox: Inbox,
                     outbox: seq<Frame>, data: seq<bv32>)
    requires total == RxWords(task, n, inbox0)
    requires ok ==> |stored| == n
    requires WordsProgress(ok, task, n, total, outbox0, data0, stored, acks, inbox, outbox, data)
    ensures var w := RxWords(task, n, inbox0);
            && ok == w.ok && outbox == outbox0 + w.acks && inbox == w.rest
            && data == w.words + data0[|w.words|..]
  {
    if ok {
      assert stored + [] == stored && acks + [] == acks;
    }
  }

  /** `receive` has reported what `RxMessage` says of `inbox0`: `quantity` keeps its
      incoming value `quantityIn` unless a quantity was read. */
  ghost predicate Reported(inbox0: Inbox, outbox0: seq<Frame>, data0: seq<bv32>, quantityIn: bv16, ok: bool,
                           task: bv16, quantity: bv16, inbox: Inbox, outbox: seq<Frame>, data: seq<bv32>)
  {
    var r := RxMessage(inbox0);
    && ok == r.ok && task == r.task
    && quantity == (if r.quantity.Some? then r.quantity.value else quantityIn)
    && outbox == outbox0 + r.out && inbox == r.rest
    && |r.words| <= |data0| && data == r.words + data0[|r.words|..]
  }

  /** A task of 0 ends `receive` at once. */
  lemma TaskRefused(inbox0: Inbox, outbox0: seq<Frame>, data0: seq<bv32>, quantityIn: bv16,
                    inbox: Inbox, outbox: seq<Frame>, data: seq<bv32>)
    requires var t := RxTask(inbox0);
             t.value == 0 && outbox == outbox0 + [t.ack] && inbox == t.rest && data == data0
    ensures Reported(inbox0, outbox0, data0, quantityIn, false, 0, quantityIn, inbox, outbox, data)
  {
    assert data0 == [] + data0[0..];
  }

  /** A quantity of 0 or above 64 ends `receive` before the data loop. */
  lemma QuantityRefused(inbox0: Inbox, outbox0: seq<Frame>, data0: seq<bv32>, quantityIn: bv16, task: bv16,
                        quantity: bv16, inbox: Inbox, outbox: seq<Frame>, data: seq<bv32>)
    requires var t := RxTask(inbox0);
             var q := RxQuantity(t.value, t.rest);
             && t.value != 0 && task == t.value && quantity == q.value
             && (quantity == 0 || quantity as nat > MaxQuantity)
             && outbox == outbox0 + [t.ack] + [q.ack] && inbox == q.rest && data == data0
    ensures Reported(inbox0, outbox0, data0, quantityIn, false, task, quantity, inbox, outbox, data)
  {
    var t := RxTask(inbox0);
    var q := RxQuantity(t.value, t.rest);
    assert data0 == [] + data0[0..];
    assert [t.ack] + [q.ack] == [t.ack, q.ack];
    AppendAssoc(outbox0, [t.ack], [q.ack]);
  }

  /** A failed data step ends `receive` inside the data loop. */
  lemma WordsRefused(inbox0: Inbox, outbox0: seq<Frame>, data0: seq<bv32>, quantityIn: bv16, n: nat, task: bv16,
                     quantity: bv16, inbox: Inbox, outbox: seq<Frame>, data: seq<bv32>)
    requires var t := RxTask(inbox0);
             var q := RxQuantity(t.value, t.rest);
             var w := RxWords(task, n, q.rest);
             && t.value != 0 && task == t.value && quantity == q.value && quantity != 0
             && n == quantity as nat && n <= MaxQuantity && n <= |data0| && !w.ok
             && outbox == outbox0 + [t.ack] + [q.ack] + w.acks && inbox == w.rest
             && data == w.words + data0[|w.words|..]
    ensures Reported(inbox0, outbox0, data0, quantityIn, false, task, quantity, inbox, outbox, data)
  {
    var t := RxTask(inbox0);
    var q := RxQuantity(t.value, t.rest);
    AppendAssoc(outbox0, [t.ack], [q.ack]);
    AppendAssoc(outbox0, [t.ack] + [q.ack], RxWords(task, n, q.rest).acks);
    assert [t.ack] + [q.ack] == [t.ack, q.ack];
  }

  /** After the data loop, the terminator step decides `receive`. */
  lemma MessageTaken(inbox0: Inbox, outbox0: seq<Frame>, data0: seq<bv32>, quantityIn: bv16, n: nat, ok: bool,
                     task: bv16, quantity: bv16, inbox: Inbox, outbox: seq<Frame>, data: seq<bv32>)
    requires var t := RxTask(inbox0);
             var q := RxQuantity(t.value, t.rest);
             var w := RxWords(task, n, q.rest);
             var e := RxTerm(task, w.rest);
             && t.value != 0 && task == t.value && quantity == q.value && quantity != 0
             && n == quantity as nat && n <= MaxQuantity && n <= |data0| && w.ok
             && ok == e.value && outbox == outbox0 + [t.ack] + [q.ack] + w.acks + [e.ack] && inbox == e.rest
             && data == w.words + data0[|w.words|..]
    ensures Reported(inbox0, outbox0, data0, quantityIn, ok, task, quantity, inbox, outbox, data)
  {
    var t := RxTask(inbox0);
    var q := RxQuantity(t.value, t.rest);
    var w := RxWords(task, n, q.rest);
    AppendAssoc(outbox0, [t.ack], [q.ack]);
    AppendAssoc(outbox0, [t.ack] + [q.ack], w.acks);
    AppendAssoc(outbox0, [t.ack] + [q.ack] + w.acks, [RxTerm(task, w.rest).ack]);
    assert [t.ack] + [q.ack] == [t.ack, q.ack];
  }

  /** A failed data step ends the data loop with whatever it stored. */
  lemma WordsStop(task: bv16, n: nat, inbox: Inbox)
    requires n > 0 && !RxData(task, inbox).ok
    ensures RxWords(task, n, inbox)
         == Words(false, if RxData(task, inbox).word.Some? then [RxData(task, inbox).word.value] else [],
                  [RxData(task, inbox).ack], RxData(task, inbox).rest)
  {
  }
}

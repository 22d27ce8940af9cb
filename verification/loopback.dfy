/** Two MessageComIR endpoints joined by lossless links: every frame the sender transmits
    is what the receiver's next receive call reports, and every ack the receiver transmits
    is what the sender's next receive call reports. */
module Loopback {
  import opened Wire
  import opened Ack
  import opened Crc
  import opened Sender
  import opened Receiver
  import opened Endpoint

  /** All frames of `send` for a message, in order: task, quantity, each word with its
      checksum, terminator. */
  function MessageFrames(task: bv16, quantity: bv16, words: seq<bv32>): (frames: seq<Frame>)
    ensures |frames| == 2 * |words| + 3
  {
    FlattenWords(words);
    [Frame(task as bv32, TaskBits), Frame(quantity as bv32, QuantityBits)]
      + Flatten(DataUnits(words)) + [Frame(TermValue, TermBits)]
  }

  /** The acks a receiver sends for a message of `n` words it accepts. */
  function AcceptAcks(task: bv16, n: nat): seq<Frame>
  {
    Repeat([AckFrame(task, true)], n + 3)
  }

  lemma {:induction false} FlattenAppend(a: seq<seq<Frame>>, b: seq<seq<Frame>>)
    ensures Flatten(a + b) == Flatten(a) + Flatten(b)
    decreases |a|
  {
    if a == [] {
      assert a + b == b;
    } else {
      assert (a + b)[1..] == a[1..] + b;
      FlattenAppend(a[1..], b);
    }
  }

  /** The steps of `send` laid end to end are `MessageFrames`. */
  lemma UnitsAreFrames(task: bv16, quantity: bv16, words: seq<bv32>)
    ensures Flatten(MessageUnits(task, quantity, words)) == MessageFrames(task, quantity, words)
  {
    var head := [TaskUnit(task), QuantityUnit(quantity)];
    var body := DataUnits(words);
    FlattenAppend(head + body, [TermUnit()]);
    FlattenAppend(head, body);
    FlattenPair(TaskUnit(task), QuantityUnit(quantity));
    FlattenOne(TermUnit());
  }

  lemma FlattenPair(a: seq<Frame>, b: seq<Frame>)
    ensures Flatten([a, b]) == a + b
  {
    assert [a, b][1..] == [b];
    FlattenOne(b);
  }

  lemma FlattenOne(a: seq<Frame>)
    ensures Flatten([a]) == a
  {
    assert [a][1..] == [];
  }

  /** The sender's side of the loopback: a peer that acks each step at once makes `send`
      succeed with one transmission of every step, consuming one ack per step. */
  lemma SenderAcked(task: bv16, quantity: bv16, words: seq<bv32>)
    requires task < 0x1000 && |words| == quantity as nat
    ensures TxMessage(task, quantity, words, Delivered(AcceptAcks(task, |words|)))
         == TxResult(true, MessageFrames(task, quantity, words), [])
  {
    WholeMessage(quantity, words);
    AckedMessage(task, quantity, words);
    UnitsAreFrames(task, quantity, words);
  }

  lemma AckedMessage(task: bv16, quantity: bv16, words: seq<bv32>)
    requires task < 0x1000
    ensures TxUnits(MessageUnits(task, quantity, words), task, Delivered(AcceptAcks(task, |words|)))
         == TxResult(true, Flatten(MessageUnits(task, quantity, words)), [])
  {
    var acks := Delivered(AcceptAcks(task, |words|));
    var units := MessageUnits(task, quantity, words);
    AckedDelivered(task, |words| + 3);
    assert |units| == |words| + 3;
    AckedRun(units, task, acks);
  }

  lemma WholeMessage(quantity: bv16, words: seq<bv32>)
    requires |words| == quantity as nat
    ensures words[..quantity] == words
  {
    TakeAll(words, quantity as nat);
  }

  lemma TakeAll(words: seq<bv32>, n: nat)
    requires n == |words|
    ensures words[..n] == words
  {
  }

  lemma {:induction false} AckedDelivered(task: bv16, n: nat)
    ensures AllAcked(Delivered(Repeat([AckFrame(task, true)], n)), task, n)
    ensures |Delivered(Repeat([AckFrame(task, true)], n))| == n
    decreases n
  {
    if n > 0 {
      AckedDelivered(task, n - 1);
      var rest := Repeat([AckFrame(task, true)], n - 1);
      DeliveredAppend([AckFrame(task, true)], rest);
    }
  }

  /** What the receiver reads when `MessageFrames` arrive carries the message. */
  lemma FramesEncode(task: bv16, quantity: bv16, words: seq<bv32>)
    requires task != 0 && 0 < quantity as nat <= MaxQuantity && |words| == quantity as nat
    ensures Encodes(Delivered(MessageFrames(task, quantity, words)), task, quantity, words)
  {
    var body := Flatten(DataUnits(words));
    var pre := [Frame(task as bv32, TaskBits), Frame(quantity as bv32, QuantityBits)];
    var inbox := Delivered(MessageFrames(task, quantity, words));
    FlattenWords(words);
    DeliveredAppend(pre + body, [Frame(TermValue, TermBits)]);
    DeliveredAppend(pre, body);
    Low16Widen(task);
    Low16Widen(quantity);
    assert inbox[2..][..2 * |words|] == Delivered(body);
    WordFramesDelivered(inbox[2..], words);
  }

  /** The receiver's side of the loopback: on the frames of `send`, `receive` succeeds,
      reports the task, the quantity and the words, acks every step positively and
      consumes every frame. */
  lemma ReceiverAccepts(task: bv16, quantity: bv16, words: seq<bv32>)
    requires 0 < task && 0 < quantity as nat <= MaxQuantity && |words| == quantity as nat
    ensures RxMessage(Delivered(MessageFrames(task, quantity, words)))
         == Received(true, task, Some(quantity), words, AcceptAcks(task, |words|), [])
  {
    var frames := MessageFrames(task, quantity, words);
    FramesEncode(task, quantity, words);
    Complete(Delivered(frames), task, quantity, words);
  }

  /** The loopback round trip: with a task below 4096 and 1 to 64 words, `send` and
      `receive` both succeed, the receiver recovers the task, the quantity and every word,
      and the acks it transmits are exactly those the sender consumed. */
  lemma RoundTrip(task: bv16, quantity: bv16, words: seq<bv32>)
    requires 0 < task < 0x1000 && 0 < quantity as nat <= MaxQuantity && |words| == quantity as nat
    ensures var acks := Delivered(AcceptAcks(task, |words|));
            var s := TxMessage(task, quantity, words, acks);
            var r := RxMessage(Delivered(s.out));
            && s.ok && s.rest == []
            && r.ok && r.task == task && r.quantity == Some(quantity) && r.words == words
            && r.rest == [] && Delivered(r.out) == acks
  {
    SenderAcked(task, quantity, words);
    ReceiverAccepts(task, quantity, words);
  }

  /** A lost task ack is not recovered. When the receiver's positive ack for the task is
      lost, the sender transmits the task again; the receiver takes that frame in its
      quantity step and answers with the negative ack, and the sender's task step fails on
      it without a third attempt. */
  lemma LostTaskAck(task: bv16, quantity: bv16, data: seq<bv32>)
    requires 0 < task < 0x1000 && quantity as nat <= |data|
    ensures var r := RxMessage(Delivered(TaskUnit(task) + TaskUnit(task)));
            r.out == [AckFrame(task, true), AckFrame(task, false)] && !r.ok
    ensures var replies := [None, Some(AckFrame(task, false))];
            TxMessage(task, quantity, data, replies)
              == TxResult(false, TaskUnit(task) + TaskUnit(task), [])
  {
    RepeatedTask(Delivered(TaskUnit(task) + TaskUnit(task)), task);
    var replies: Inbox := [None, Some(AckFrame(task, false))];
    NegativeAckFails(TaskUnit(task), task, task, replies[1..]);
    assert Tail(replies) == replies[1..];
  }

  /** Over the loopback, `send` of a buffer transmits the frames of its first `quantity`
      words. */
  lemma SentPrefix(task: bv16, quantity: bv16, data: seq<bv32>)
    requires 0 < task < 0x1000 && quantity as nat <= |data|
    ensures TxMessage(task, quantity, data, Delivered(AcceptAcks(task, quantity as nat)))
         == TxResult(true, MessageFrames(task, quantity, data[..quantity]), [])
  {
    assert data[..quantity][..quantity] == data[..quantity];
    SenderAcked(task, quantity, data[..quantity]);
  }

  /** The round trip run on two endpoints: `send` of `data[..quantity]` on one, fed as its
      replies the acks of an accepting receiver; `receive` on the other, fed the frames the
      first transmitted. The acks the second endpoint transmits are the first one's
      replies. */
  method Connect(task: bv16, data: array<bv32>, quantity: bv16)
    returns (sent: bool, received: bool, task': bv16, quantity': bv16, buffer: array<bv32>, acks: seq<Frame>)
    requires 0 < task < 0x1000 && 0 < quantity as nat <= MaxQuantity && quantity as nat <= data.Length
    ensures sent && received && task' == task && quantity' == quantity
    ensures buffer.Length == MaxQuantity && buffer[..quantity] == data[..quantity]
    ensures acks == AcceptAcks(task, quantity as nat)
  {
    ghost var words := data[..quantity];
    ghost var frames := MessageFrames(task, quantity, words);
    var sender := new MessageComIR(Delivered(AcceptAcks(task, quantity as nat)));
    sent := sender.Send(task, quantity, data);
    SentPrefix(task, quantity, data[..]);
    assert sent && sender.outbox == frames;
    ReceiverAccepts(task, quantity, words);
    var receiver := new MessageComIR(Delivered(sender.outbox));
    buffer := new bv32[MaxQuantity];
    ghost var r := RxMessage(Delivered(frames));
    assert r.ok && r.task == task && r.quantity == Some(quantity) && r.words == words;
    received, task', quantity' := receiver.Receive(buffer, 0);
    assert buffer[..] == words + buffer[..][quantity..];
    acks := receiver.outbox;
  }
}

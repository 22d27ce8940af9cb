/** The receiver's side of MessageComIR as functions on the receive channel: what each step
    (receiveTask, receiveQuantity, receiveDataAndChecksum, receiveChecksum, receiveTerm)
    reads, answers and yields, and how `receive` chains them. The class in `endpoint.dfy`
    is proved to behave as these say. */
module Receiver {
  import opened Wire
  import opened Ack
  import opened Crc
  import opened Sender

  /** A single-attempt receiver step: what it yields, the one ack it sends, what is left
      to receive after its one receive call. */
  datatype RxStep<T> = RxStep(value: T, ack: Frame, rest: Inbox)

  /** receiveTask: a 12-bit frame is acknowledged positively with its own low 16 bits,
      which are the task; anything else is answered with the negative ack for 0xBAD and
      yields task 0. */
  function RxTask(inbox: Inbox): (s: RxStep<bv16>)
    ensures s.rest == Tail(inbox)
    ensures HasWidth(Head(inbox), TaskBits) ==> s.value == Low16(Head(inbox).value.value)
    ensures HasWidth(Head(inbox), TaskBits) <==> s.ack == AckFrame(s.value, true)
    ensures !HasWidth(Head(inbox), TaskBits) ==> s.value == 0 && s.ack == AckFrame(BadTask, false)
  {
    var r := Head(inbox);
    if HasWidth(r, TaskBits) then
      var task := Low16(r.value.value);
      RxStep(task, AckFrame(task, true), Tail(inbox))
    else
      RxStep(0, AckFrame(BadTask, false), Tail(inbox))
  }

  /** receiveQuantity: a 14-bit frame yields its low 16 bits and a positive ack; anything
      else yields 0 and a negative ack. */
  function RxQuantity(task: bv16, inbox: Inbox): (s: RxStep<bv16>)
    ensures s.rest == Tail(inbox)
    ensures s.ack == AckFrame(task, HasWidth(Head(inbox), QuantityBits))
    ensures s.value == if HasWidth(Head(inbox), QuantityBits) then Low16(Head(inbox).value.value) else 0
  {
    var r := Head(inbox);
    if HasWidth(r, QuantityBits) then RxStep(Low16(r.value.value), AckFrame(task, true), Tail(inbox))
    else RxStep(0, AckFrame(task, false), Tail(inbox))
  }

  /** receiveTerm: a 15-bit frame is acknowledged positively before its value is compared
      with 0xE2D; anything else gets a negative ack. */
  function RxTerm(task: bv16, inbox: Inbox): (s: RxStep<bool>)
    ensures s.rest == Tail(inbox)
    ensures s.ack == AckFrame(task, HasWidth(Head(inbox), TermBits))
    ensures s.value <==> Head(inbox) == Some(Frame(TermValue, TermBits))
  {
    var r := Head(inbox);
    if HasWidth(r, TermBits) then RxStep(r.value.value == TermValue, AckFrame(task, true), Tail(inbox))
    else RxStep(false, AckFrame(task, false), Tail(inbox))
  }

  /** receiveChecksum: a 16-bit frame is acknowledged positively before its full 32-bit
      value is compared with the expected checksum; anything else gets a negative ack. */
  function RxChecksum(checksum: bv16, task: bv16, inbox: Inbox): (s: RxStep<bool>)
    ensures s.rest == Tail(inbox)
    ensures s.ack == AckFrame(task, HasWidth(Head(inbox), ChecksumBits))
    ensures s.value <==> Head(inbox) == Some(Frame(checksum as bv32, ChecksumBits))
  {
    var r := Head(inbox);
    if HasWidth(r, ChecksumBits) then RxStep(r.value.value == checksum as bv32, AckFrame(task, true), Tail(inbox))
    else RxStep(false, AckFrame(task, false), Tail(inbox))
  }

  /** receiveDataAndChecksum: the word it stores through `recvData`, if any, its verdict,
      its one ack and what is left to receive. */
  datatype DataStep = DataStep(ok: bool, word: Option<bv32>, ack: Frame, rest: Inbox)

  /** A 32-bit frame's value is stored at once and its checksum step follows, which sends
      the ack; anything else stores nothing and gets a negative ack. The step succeeds
      exactly when a 32-bit frame is followed by the 16-bit frame carrying its CRC. */
  function RxData(task: bv16, inbox: Inbox): (d: DataStep)
    ensures d.word.Some? <==> HasWidth(Head(inbox), DataBits)
    ensures d.word.Some? ==> d.word.value == inbox[0].value.value && d.rest == Drop(inbox, 2)
                             && d.ack == AckFrame(task, HasWidth(Reply(inbox, 1), ChecksumBits))
    ensures d.word.None? ==> d.rest == Tail(inbox) && d.ack == AckFrame(task, false)
    ensures d.ok <==> |inbox| >= 2 && HasWidth(inbox[0], DataBits)
                      && inbox[1] == Some(Frame(CrcWord(inbox[0].value.value) as bv32, ChecksumBits))
  {
    var r := Head(inbox);
    if HasWidth(r, DataBits) then
      var word := r.value.value;
      var c := RxChecksum(CrcWord(word), task, Tail(inbox));
      DropTail(inbox, 0);
      DropTail(inbox, 1);
      DataStep(c.value, Some(word), c.ack, c.rest)
    else
      DataStep(false, None, AckFrame(task, false), Tail(inbox))
  }

  /** The data loop of `receive`: what it has stored, in order, the acks it sent, and
      whether all `n` steps succeeded. */
  datatype Words = Words(ok: bool, words: seq<bv32>, acks: seq<Frame>, rest: Inbox)

  /** `n` data steps, stopping at the first failure. The word of a failed step, when one
      arrived, has been stored all the same. */
  function RxWords(task: bv16, n: nat, inbox: Inbox): (w: Words)
    ensures |w.words| <= n
    ensures w.ok ==> |w.words| == n
    decreases n
  {
    if n == 0 then Words(true, [], [], inbox)
    else
      var d := RxData(task, inbox);
      if !d.ok then Words(false, if d.word.Some? then [d.word.value] else [], [d.ack], d.rest)
      else
        var w := RxWords(task, n - 1, d.rest);
        Words(w.ok, [d.word.value] + w.words, [d.ack] + w.acks, w.rest)
  }

  /** What `receive` ends with: its verdict, the task and quantity it writes back (the
      quantity only once a task arrived), the words it stores from `data[0]` on, the acks
      it sends and what is left to receive. */
  datatype Received = Received(ok: bool, task: bv16, quantity: Option<bv16>, words: seq<bv32>, out: seq<Frame>, rest: Inbox)

  function RxMessage(inbox: Inbox): (r: Received)
    ensures |r.words| <= MaxQuantity
  {
    var t := RxTask(inbox);
    if t.value == 0 then Received(false, 0, None, [], [t.ack], t.rest)
    else
      var q := RxQuantity(t.value, t.rest);
      if q.value == 0 || q.value as nat > MaxQuantity then
        Received(false, t.value, Some(q.value), [], [t.ack, q.ack], q.rest)
      else
        var w := RxWords(t.value, q.value as nat, q.rest);
        if !w.ok then Received(false, t.value, Some(q.value), w.words, [t.ack, q.ack] + w.acks, w.rest)
        else
          var e := RxTerm(t.value, w.rest);
          Received(e.value, t.value, Some(q.value), w.words, [t.ack, q.ack] + w.acks + [e.ack], e.rest)
  }

  /** The first frames of `inbox` are the data steps' frames for `words`, as `send`
      transmits them: each word in a 32-bit frame, then its CRC in a 16-bit frame. */
  predicate WordFrames(inbox: Inbox, words: seq<bv32>)
    decreases |words|
  {
    words == [] ||
      (&& |inbox| >= 2 && inbox[0] == Some(Frame(words[0], DataBits))
       && inbox[1] == Some(Frame(CrcWord(words[0]) as bv32, ChecksumBits))
       && WordFrames(inbox[2..], words[1..]))
  }

  /** `WordFrames` says that the next `2 * |words|` frames are those the data steps of
      `send` transmit for `words`, delivered in order. */
  lemma {:induction false} WordFramesDelivered(inbox: Inbox, words: seq<bv32>)
    ensures WordFrames(inbox, words)
        <==> 2 * |words| <= |inbox| && inbox[..2 * |words|] == Delivered(Flatten(DataUnits(words)))
    decreases |words|
  {
    if words != [] && |inbox| >= 2 {
      var ws := words[1..];
      WordFramesDelivered(inbox[2..], ws);
      FlattenWords(ws);
      DeliveredAppend(DataUnit(words[0]), Flatten(DataUnits(ws)));
      if 2 * |words| <= |inbox| {
        assert inbox[..2 * |words|] == inbox[..2] + inbox[2..][..2 * |ws|];
      }
    }
  }

  /** The first frames the receiver reads carry a message it accepts: a nonzero task in a
      12-bit frame, a quantity from 1 to 64 in a 14-bit frame (both read on their low 16
      bits), the frames of that many words with their checksums, and the 15-bit
      terminator 0xE2D. */
  predicate Encodes(inbox: Inbox, task: bv16, quantity: bv16, words: seq<bv32>)
  {
    && task != 0 && 0 < quantity as nat <= MaxQuantity && |words| == quantity as nat
    && |inbox| >= 2 * |words| + 3
    && HasWidth(inbox[0], TaskBits) && Low16(inbox[0].value.value) == task
    && HasWidth(inbox[1], QuantityBits) && Low16(inbox[1].value.value) == quantity
    && WordFrames(inbox[2..], words)
    && inbox[2 * |words| + 2] == Some(Frame(TermValue, TermBits))
  }

  lemma WordFramesCons(inbox: Inbox, x: bv32, ws: seq<bv32>)
    ensures WordFrames(inbox, [x] + ws)
        <==> |inbox| >= 2 && inbox[0] == Some(Frame(x, DataBits))
             && inbox[1] == Some(Frame(CrcWord(x) as bv32, ChecksumBits))
             && WordFrames(inbox[2..], ws)
  {
    assert ([x] + ws)[0] == x && ([x] + ws)[1..] == ws;
  }

  /** The data loop succeeds exactly when its `n` words arrive each with its CRC; it then
      answers each with the positive ack and consumes two frames per word. */
  lemma WordsSucceed(task: bv16, n: nat, inbox: Inbox)
    ensures var w := RxWords(task, n, inbox);
            w.ok <==> WordFrames(inbox, w.words) && |w.words| == n
    ensures var w := RxWords(task, n, inbox);
            w.ok ==> w.acks == Repeat([AckFrame(task, true)], n) && w.rest == Drop(inbox, 2 * n)
  {
    WordsOk(task, n, inbox);
    WordsAcked(task, n, inbox);
  }

  lemma {:induction false} WordsOk(task: bv16, n: nat, inbox: Inbox)
    ensures var w := RxWords(task, n, inbox);
            w.ok <==> WordFrames(inbox, w.words) && |w.words| == n
    decreases n, 1
  {
    if n == 0 {
      assert RxWords(task, n, inbox).words == [];
    } else if RxData(task, inbox).ok {
      OkStep(task, n, inbox);
    } else {
      OkStop(task, n, inbox);
    }
  }

  lemma {:induction false} OkStep(task: bv16, n: nat, inbox: Inbox)
    requires n > 0 && RxData(task, inbox).ok
    ensures var w := RxWords(task, n, inbox);
            w.ok <==> WordFrames(inbox, w.words) && |w.words| == n
    decreases n, 0
  {
    WordsOk(task, n - 1, inbox[2..]);
    WordsCons(task, n, inbox);
    WordFramesCons(inbox, RxData(task, inbox).word.value, RxWords(task, n - 1, inbox[2..]).words);
  }

  lemma OkStop(task: bv16, n: nat, inbox: Inbox)
    requires n > 0 && !RxData(task, inbox).ok
    ensures var w := RxWords(task, n, inbox);
            !w.ok && !(WordFrames(inbox, w.words) && |w.words| == n)
  {
    var d := RxData(task, inbox);
    if d.word.Some? {
      WordFramesCons(inbox, d.word.value, []);
    }
  }

  lemma {:induction false} WordsAcked(task: bv16, n: nat, inbox: Inbox)
    ensures var w := RxWords(task, n, inbox);
            w.ok ==> w.acks == Repeat([AckFrame(task, true)], n) && w.rest == Drop(inbox, 2 * n)
    decreases n
  {
    if n > 0 && RxData(task, inbox).ok {
      WordsAcked(task, n - 1, inbox[2..]);
      WordsCons(task, n, inbox);
      DropDrop(inbox, 2, 2 * (n - 1));
    }
  }

  /** On the frames of `n` words each with its CRC, the data loop stores exactly those
      words. */
  lemma {:induction false} WordsMatch(task: bv16, n: nat, inbox: Inbox, words: seq<bv32>)
    requires |words| == n && WordFrames(inbox, words)
    ensures RxWords(task, n, inbox).words == words
    decreases n
  {
    if n > 0 {
      assert words == [words[0]] + words[1..];
      WordFramesCons(inbox, words[0], words[1..]);
      assert RxData(task, inbox).ok;
      WordsCons(task, n, inbox);
      WordsMatch(task, n - 1, inbox[2..], words[1..]);
    }
  }

  /** What a successful `receive` has read: a task frame, a quantity frame, the data
      loop's frames, and the terminator. */
  lemma AcceptedShape(inbox: Inbox)
    requires RxMessage(inbox).ok
    ensures var r := RxMessage(inbox);
            var n := Low16(inbox[1].value.value) as nat;
            var w := RxWords(r.task, n, inbox[2..]);
            && |inbox| >= 2
            && HasWidth(inbox[0], TaskBits) && r.task == Low16(inbox[0].value.value) && r.task != 0
            && HasWidth(inbox[1], QuantityBits) && r.quantity == Some(Low16(inbox[1].value.value))
            && 0 < n <= MaxQuantity
            && w.ok && r.words == w.words
            && Head(w.rest) == Some(Frame(TermValue, TermBits)) && r.rest == Tail(w.rest)
  {
    var t := RxTask(inbox);
    assert t.rest == inbox[1..];
    var q := RxQuantity(t.value, t.rest);
    assert q.rest == inbox[2..];
  }

  /** A task frame received twice is not taken for a retry: `receive` has moved on to its
      quantity step, which answers the second with the negative ack and fails. */
  lemma RepeatedTask(inbox: Inbox, task: bv16)
    requires task != 0 && |inbox| >= 2
    requires inbox[0] == Some(Frame(task as bv32, TaskBits)) && inbox[1] == inbox[0]
    ensures var r := RxMessage(inbox);
            && !r.ok && r.task == task && r.quantity == Some(0) && r.words == []
            && r.out == [AckFrame(task, true), AckFrame(task, false)] && r.rest == inbox[2..]
  {
    Low16Widen(task);
  }

  /** Soundness: `receive` succeeds only on a message it accepts, and then reports that
      message's task, quantity and words and consumes exactly its frames. */
  lemma Sound(inbox: Inbox)
    ensures var r := RxMessage(inbox);
            r.ok ==> r.quantity.Some?
                     && Encodes(inbox, r.task, r.quantity.value, r.words)
                     && r.rest == Drop(inbox, 2 * |r.words| + 3)
  {
    if RxMessage(inbox).ok {
      var r := RxMessage(inbox);
      AcceptedShape(inbox);
      AcceptedEncodes(inbox, r.task, r.quantity.value, r.words, r.rest);
    }
  }

  lemma AcceptedEncodes(inbox: Inbox, task: bv16, quantity: bv16, words: seq<bv32>, rest: Inbox)
    requires |inbox| >= 2
    requires HasWidth(inbox[0], TaskBits) && task == Low16(inbox[0].value.value) && task != 0
    requires HasWidth(inbox[1], QuantityBits) && quantity == Low16(inbox[1].value.value)
    requires 0 < quantity as nat <= MaxQuantity
    requires var w := RxWords(task, quantity as nat, inbox[2..]);
             && w.ok && words == w.words
             && Head(w.rest) == Some(Frame(TermValue, TermBits)) && rest == Tail(w.rest)
    ensures Encodes(inbox, task, quantity, words) && rest == Drop(inbox, 2 * |words| + 3)
  {
    var n := quantity as nat;
    WordsSucceed(task, n, inbox[2..]);
    assert inbox[2..][2 * n..] == inbox[2 * n + 2..];
  }

  /** Completeness: on a message it accepts `receive` succeeds, reports it, answers every
      step with the positive ack for the task, and consumes exactly its frames. */
  lemma Complete(inbox: Inbox, task: bv16, quantity: bv16, words: seq<bv32>)
    requires Encodes(inbox, task, quantity, words)
    ensures RxMessage(inbox)
         == Received(true, task, Some(quantity), words,
                     Repeat([AckFrame(task, true)], |words| + 3), Drop(inbox, 2 * |words| + 3))
  {
    var n := quantity as nat;
    WordsMatch(task, n, inbox[2..], words);
    WordsSucceed(task, n, inbox[2..]);
    assert inbox[2..][2 * n..] == inbox[2 * n + 2..];
    RepeatAcks(task, n);
    EncodedShape(inbox, task, quantity, words);
  }

  /** How `receive` runs on a message it accepts, step by step. */
  lemma EncodedShape(inbox: Inbox, task: bv16, quantity: bv16, words: seq<bv32>)
    requires Encodes(inbox, task, quantity, words)
    requires var w := RxWords(task, |words|, inbox[2..]);
             w.ok && w.words == words && w.acks == Repeat([AckFrame(task, true)], |words|)
             && w.rest == inbox[2 * |words| + 2..]
    ensures RxMessage(inbox)
         == Received(true, task, Some(quantity), words,
                     [AckFrame(task, true), AckFrame(task, true)]
                       + RxWords(task, |words|, inbox[2..]).acks + [AckFrame(task, true)],
                     inbox[2 * |words| + 3..])
  {
    var n := |words|;
    var t := RxTask(inbox);
    assert t.value == task && t.ack == AckFrame(task, true) && t.rest == inbox[1..];
    var q := RxQuantity(t.value, t.rest);
    assert q.value == quantity && q.ack == AckFrame(task, true) && q.rest == inbox[2..];
    assert q.value as nat == n;
    var w := RxWords(task, n, q.rest);
    assert Head(w.rest) == Some(Frame(TermValue, TermBits));
    assert Tail(w.rest) == inbox[2 * n + 3..];
  }

  lemma RepeatAcks(task: bv16, n: nat)
    ensures [AckFrame(task, true), AckFrame(task, true)] + Repeat([AckFrame(task, true)], n) + [AckFrame(task, true)]
         == Repeat([AckFrame(task, true)], n + 3)
  {
    RepeatSnoc([AckFrame(task, true)], n + 2);
  }

  /** Write discipline of `receive`. The quantity is written back exactly when a nonzero
      task arrived. A quantity of 0 or above 64 stops it before any word is stored. It
      stores at most `quantity` words, one per data frame read in order, each word but the
      last validated by its checksum; the last may be one whose checksum step failed. */
  lemma WriteDiscipline(inbox: Inbox)
    ensures var r := RxMessage(inbox);
            && (r.quantity.Some? <==> r.task != 0)
            && ((r.quantity.Some? && (r.quantity.value == 0 || r.quantity.value as nat > MaxQuantity))
                  ==> !r.ok && r.words == [])
            && (r.quantity.Some? ==> |r.words| <= r.quantity.value as nat)
            && StoredFrom(Drop(inbox, 2), r.words)
  {
    var t := RxTask(inbox);
    if t.value != 0 {
      var q := RxQuantity(t.value, t.rest);
      assert q.rest == Drop(inbox, 2);
      if 0 < q.value as nat <= MaxQuantity {
        WordsStored(t.value, q.value as nat, Drop(inbox, 2));
        LoopWritten(inbox);
      }
    }
  }

  /** Once a quantity from 1 to 64 arrived, what `receive` stores is what its data loop
      stores. */
  lemma LoopWritten(inbox: Inbox)
    requires RxTask(inbox).value != 0
    requires var q := RxQuantity(RxTask(inbox).value, Tail(inbox)).value;
             0 < q as nat <= MaxQuantity
    ensures var t := RxTask(inbox).value;
            var q := RxQuantity(t, Tail(inbox)).value;
            RxMessage(inbox).words == RxWords(t, q as nat, Drop(inbox, 2)).words
            && RxMessage(inbox).quantity == Some(q)
  {
    var t := RxTask(inbox);
    var q := RxQuantity(t.value, t.rest);
    assert q.rest == Drop(inbox, 2);
  }

  /** `words` were read from the data frames at the start of `inbox`, in order, and each
      but the last was followed by the 16-bit frame of its CRC. */
  predicate StoredFrom(inbox: Inbox, words: seq<bv32>)
    decreases |words|
  {
    words == [] ||
    (&& |inbox| > 0 && inbox[0] == Some(Frame(words[0], DataBits))
     && (|words| > 1 ==>
           && |inbox| > 1 && inbox[1] == Some(Frame(CrcWord(words[0]) as bv32, ChecksumBits))
           && StoredFrom(inbox[2..], words[1..])))
  }

  /** Every word the data loop stores came from a data frame, in order, and each but the
      last had passed its checksum step. */
  lemma {:induction false} WordsStored(task: bv16, n: nat, inbox: Inbox)
    ensures StoredFrom(inbox, RxWords(task, n, inbox).words)
    decreases n
  {
    if n > 0 {
      if RxData(task, inbox).ok {
        WordsStored(task, n - 1, inbox[2..]);
        StoredStep(task, n, inbox);
      } else {
        StoredStop(task, n, inbox);
      }
    }
  }

  lemma StoredStep(task: bv16, n: nat, inbox: Inbox)
    requires n > 0 && RxData(task, inbox).ok
    requires StoredFrom(inbox[2..], RxWords(task, n - 1, inbox[2..]).words)
    ensures StoredFrom(inbox, RxWords(task, n, inbox).words)
  {
    var x := RxData(task, inbox).word.value;
    var ws' := RxWords(task, n - 1, inbox[2..]).words;
    WordsCons(task, n, inbox);
    assert ([x] + ws')[1..] == ws';
  }

  lemma StoredStop(task: bv16, n: nat, inbox: Inbox)
    requires n > 0 && !RxData(task, inbox).ok
    ensures StoredFrom(inbox, RxWords(task, n, inbox).words)
  {
  }

  /** A successful data step is followed by the rest of the loop. */
  lemma WordsCons(task: bv16, n: nat, inbox: Inbox)
    requires n > 0 && RxData(task, inbox).ok
    ensures var d := RxData(task, inbox);
            var w' := RxWords(task, n - 1, inbox[2..]);
            && |inbox| >= 2 && d.word.Some?
            && inbox[0] == Some(Frame(d.word.value, DataBits))
            && inbox[1] == Some(Frame(CrcWord(d.word.value) as bv32, ChecksumBits))
            && RxWords(task, n, inbox)
               == Words(w'.ok, [d.word.value] + w'.words, [AckFrame(task, true)] + w'.acks, w'.rest)
  {
    assert RxData(task, inbox).rest == inbox[2..];
  }
}

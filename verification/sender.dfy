/** The sender's side of MessageComIR as functions on the receive channel: what each step
    (sendTask, sendQuantity, sendDataAndChecksum, sendTerm) transmits and reads, and how
    `send` chains them. The class in `endpoint.dfy` is proved to behave as these say. */
module Sender {
  import opened Wire
  import opened Ack
  import opened Crc

  /** What receiveAck reports: `Missing` is its -1 (nothing, or a frame that is not 13 bits
      wide); `Checked` carries checkAck's verdict on a 13-bit frame. */
  datatype AckReply = Missing | Checked(valid: bool)

  /** receiveAck on the result of one receive call. The ack is checked on the low 16 bits
      of the frame's value. */
  function ReplyOf(r: Option<Frame>, task: bv16): (reply: AckReply)
    ensures reply.Missing? <==> !HasWidth(r, AckBits)
  {
    if HasWidth(r, AckBits) then Checked(CheckAck(Low16(r.value.value), task)) else Missing
  }

  /** A reply validates exactly when it is a 13-bit frame whose low 16 bits are the
      positive ack for `task`, which must have bit 12 clear. */
  lemma ValidReply(r: Option<Frame>, task: bv16)
    ensures ReplyOf(r, task) == Checked(true) <==>
      HasWidth(r, AckBits) && task & StatusBit == 0 && Low16(r.value.value) == AddStateToAck(task, true)
  {
  }

  /** How a sender step ended, what it transmitted and what is left to receive. */
  datatype TxResult = TxResult(ok: bool, out: seq<Frame>, rest: Inbox)

  /** `r` preceded by transmitting `sent`. */
  function After(sent: seq<Frame>, r: TxResult): TxResult
  {
    TxResult(r.ok, sent + r.out, r.rest)
  }

  /** A sender step with `tries` attempts left. An attempt transmits the step's frames
      (`unit`) and makes one receive call: nothing usable means another attempt, an ack
      ends the step with checkAck's verdict. */
  function TxStep(unit: seq<Frame>, task: bv16, inbox: Inbox, tries: nat): (r: TxResult)
    decreases tries
  {
    if tries == 0 then TxResult(false, [], inbox)
    else match ReplyOf(Head(inbox), task)
      case Missing => After(unit, TxStep(unit, task, Tail(inbox), tries - 1))
      case Checked(valid) => TxResult(valid, unit, Tail(inbox))
  }

  /** The number of attempts a step with `tries` attempts left makes: up to and including
      the first 13-bit frame, at most `tries`. */
  function Used(inbox: Inbox, tries: nat): (n: nat)
    ensures n <= tries
    ensures tries > 0 ==> n >= 1
    decreases tries
  {
    if tries == 0 then 0
    else if HasWidth(Head(inbox), AckBits) then 1
    else 1 + Used(Tail(inbox), tries - 1)
  }

  /** The retry rule. A step makes `n` attempts, 1 <= n <= tries, and transmits its frames
      once per attempt. Every attempt before the last found no 13-bit frame; the last one
      found one unless all tries were spent. The step succeeds exactly when that frame is
      the positive ack for `task`, so an ack that arrives but does not validate ends the
      step with failure, without another attempt. */
  ghost predicate Retried(unit: seq<Frame>, task: bv16, inbox: Inbox, tries: nat)
  {
    var r := TxStep(unit, task, inbox, tries);
    var n := Used(inbox, tries);
    && 1 <= n <= tries
    && (forall j :: 0 <= j < n - 1 ==> !HasWidth(Reply(inbox, j), AckBits))
    && (n < tries ==> HasWidth(Reply(inbox, n - 1), AckBits))
    && r.out == Repeat(unit, n)
    && r.rest == Drop(inbox, n)
    && (r.ok <==> ReplyOf(Reply(inbox, n - 1), task) == Checked(true))
  }

  lemma {:induction false} RetryRule(unit: seq<Frame>, task: bv16, inbox: Inbox, tries: nat)
    requires tries > 0
    ensures Retried(unit, task, inbox, tries)
    decreases tries, 1
  {
    if HasWidth(Head(inbox), AckBits) || tries == 1 {
      RetryFirst(unit, task, inbox, tries);
    } else {
      RetryMiss(unit, task, inbox, tries);
    }
  }

  /** The first attempt is the last when it finds a 13-bit frame or no try is left. */
  lemma RetryFirst(unit: seq<Frame>, task: bv16, inbox: Inbox, tries: nat)
    requires tries > 0 && (HasWidth(Head(inbox), AckBits) || tries == 1)
    ensures Retried(unit, task, inbox, tries)
  {
    assert Reply(inbox, 0) == Head(inbox);
    assert Repeat(unit, 1) == unit;
    TailIsDrop(inbox);
  }

  /** An attempt that finds nothing usable is followed by the rest of the step. */
  lemma {:induction false} RetryMiss(unit: seq<Frame>, task: bv16, inbox: Inbox, tries: nat)
    requires tries > 1 && !HasWidth(Head(inbox), AckBits)
    ensures Retried(unit, task, inbox, tries)
    decreases tries, 0
  {
    RetryRule(unit, task, Tail(inbox), tries - 1);
    MissCons(unit, task, inbox, tries);
  }

  lemma MissCons(unit: seq<Frame>, task: bv16, inbox: Inbox, tries: nat)
    requires tries > 1 && !HasWidth(Head(inbox), AckBits)
    requires Retried(unit, task, Tail(inbox), tries - 1)
    ensures Retried(unit, task, inbox, tries)
  {
    var m := Used(Tail(inbox), tries - 1);
    MissParts(unit, task, inbox, tries);
    assert Reply(inbox, 0) == Head(inbox);
    DropTail(inbox, m);
    DropTail(inbox, m - 1);
    MissEarlier(inbox, m);
  }

  lemma MissParts(unit: seq<Frame>, task: bv16, inbox: Inbox, tries: nat)
    requires tries > 1 && !HasWidth(Head(inbox), AckBits)
    ensures TxStep(unit, task, inbox, tries) == After(unit, TxStep(unit, task, Tail(inbox), tries - 1))
    ensures Used(inbox, tries) == 1 + Used(Tail(inbox), tries - 1)
    ensures unit + Repeat(unit, Used(Tail(inbox), tries - 1)) == Repeat(unit, Used(inbox, tries))
  {
  }

  lemma MissEarlier(inbox: Inbox, m: nat)
    requires !HasWidth(Head(inbox), AckBits)
    requires forall j :: 0 <= j < m - 1 ==> !HasWidth(Reply(Tail(inbox), j), AckBits)
    ensures forall j :: 0 <= j < m ==> !HasWidth(Reply(inbox, j), AckBits)
  {
    forall j | 0 <= j < m
      ensures !HasWidth(Reply(inbox, j), AckBits)
    {
      if j == 0 {
        assert Reply(inbox, 0) == Head(inbox);
      } else {
        DropTail(inbox, j - 1);
      }
    }
  }

  /** A step whose peer stays silent, or sends nothing 13 bits wide, for all five attempts
      fails after transmitting its frames five times. */
  lemma Exhaustion(unit: seq<Frame>, task: bv16, inbox: Inbox)
    requires forall j :: 0 <= j < MaxTry ==> !HasWidth(Reply(inbox, j), AckBits)
    ensures TxStep(unit, task, inbox, MaxTry) == TxResult(false, Repeat(unit, MaxTry), Drop(inbox, MaxTry))
  {
    RetryRule(unit, task, inbox, MaxTry);
  }

  /** A step whose first receive call reports the positive ack for a 12-bit task succeeds
      after one attempt. */
  lemma AckedStep(unit: seq<Frame>, task: bv16, inbox: Inbox)
    requires task < 0x1000
    requires |inbox| > 0 && inbox[0] == Some(AckFrame(task, true))
    ensures TxStep(unit, task, inbox, MaxTry) == TxResult(true, unit, inbox[1..])
  {
    Low16Widen(AddStateToAck(task, true));
    AckHandshake(task, task);
  }

  /** A negative ack, whatever task it echoes, ends a step at once with failure: it is a
      13-bit frame, so no further attempt is made. */
  lemma NegativeAckFails(unit: seq<Frame>, task: bv16, other: bv16, inbox: Inbox)
    requires |inbox| > 0 && inbox[0] == Some(AckFrame(other, false))
    ensures TxStep(unit, task, inbox, MaxTry) == TxResult(false, unit, inbox[1..])
  {
    Low16Widen(AddStateToAck(other, false));
  }

  /** Against a peer that acknowledges a repeated frame, a lost ack costs one attempt: when
      the first receive call reports nothing and the second the positive ack for a 12-bit
      task, the step succeeds after transmitting its frames twice. `receive` is not such a
      peer (see `Loopback.LostTaskAck`). */
  lemma LostAck(unit: seq<Frame>, task: bv16, inbox: Inbox)
    requires task < 0x1000
    requires |inbox| > 1 && inbox[0] == None && inbox[1] == Some(AckFrame(task, true))
    ensures TxStep(unit, task, inbox, MaxTry) == TxResult(true, unit + unit, inbox[2..])
  {
    AckedStep(unit, task, inbox[1..]);
    assert Tail(inbox) == inbox[1..];
  }

  /** Steps run one after another, each starting after the previous one succeeded; the
      first failure ends the run. */
  function TxUnits(units: seq<seq<Frame>>, task: bv16, inbox: Inbox): (r: TxResult)
    decreases |units|
  {
    if units == [] then TxResult(true, [], inbox)
    else
      var s := TxStep(units[0], task, inbox, MaxTry);
      if !s.ok then s else After(s.out, TxUnits(units[1..], task, s.rest))
  }

  /** The attempts made by each step that ran. */
  function Counts(units: seq<seq<Frame>>, task: bv16, inbox: Inbox): (c: seq<nat>)
    ensures |c| <= |units|
    ensures units != [] ==> |c| >= 1
    decreases |units|
  {
    if units == [] then []
    else
      var s := TxStep(units[0], task, inbox, MaxTry);
      var n := Used(inbox, MaxTry);
      if !s.ok then [n] else [n] + Counts(units[1..], task, s.rest)
  }

  function Sum(c: seq<nat>): nat
  {
    if c == [] then 0 else c[0] + Sum(c[1..])
  }

  /** Each of the first `|counts|` units, repeated as often as its count says, in order. */
  function Transmitted(units: seq<seq<Frame>>, counts: seq<nat>): seq<Frame>
    requires |counts| <= |units|
    decreases |counts|
  {
    if counts == [] then [] else Repeat(units[0], counts[0]) + Transmitted(units[1..], counts[1..])
  }

  /** Step `i` of a run, started where the steps before it left the channel, succeeded. */
  predicate StepOk(units: seq<seq<Frame>>, counts: seq<nat>, task: bv16, inbox: Inbox, i: nat)
    requires i < |counts| <= |units|
  {
    TxStep(units[i], task, Drop(inbox, Sum(counts[..i])), MaxTry).ok
  }

  /** Frame order and abort. The run transmits only the frames of a prefix of the steps,
      in step order, each step's frames repeated once per attempt (one to five times).
      Every step but the last one run succeeded; the run succeeds exactly when all steps
      ran and the last one succeeded, so no frame of a step after a failure is sent. */
  lemma FrameOrder(units: seq<seq<Frame>>, task: bv16, inbox: Inbox)
    ensures var r := TxUnits(units, task, inbox);
            var c := Counts(units, task, inbox);
            && (forall i :: 0 <= i < |c| ==> 1 <= c[i] <= MaxTry)
            && r.out == Transmitted(units, c)
            && r.rest == Drop(inbox, Sum(c))
            && (forall i :: 0 <= i < |c| - 1 ==> StepOk(units, c, task, inbox, i))
            && (r.ok <==> |c| == |units| && (c == [] || StepOk(units, c, task, inbox, |c| - 1)))
  {
    RunShape(units, task, inbox);
    RunOutcome(units, task, inbox);
  }

  /** The attempts, the frames and the channel position of a run, step by step. */
  ghost predicate RunShaped(units: seq<seq<Frame>>, task: bv16, inbox: Inbox)
  {
    var r := TxUnits(units, task, inbox);
    var c := Counts(units, task, inbox);
    && (forall i :: 0 <= i < |c| ==> 1 <= c[i] <= MaxTry)
    && r.out == Transmitted(units, c)
    && r.rest == Drop(inbox, Sum(c))
  }

  /** Which steps of a run succeeded, and when the run does. */
  ghost predicate RunJudged(units: seq<seq<Frame>>, task: bv16, inbox: Inbox)
  {
    var r := TxUnits(units, task, inbox);
    var c := Counts(units, task, inbox);
    && (forall i :: 0 <= i < |c| - 1 ==> StepOk(units, c, task, inbox, i))
    && (r.ok <==> |c| == |units| && (c == [] || StepOk(units, c, task, inbox, |c| - 1)))
  }

  lemma {:induction false} RunShape(units: seq<seq<Frame>>, task: bv16, inbox: Inbox)
    ensures RunShaped(units, task, inbox)
    decreases |units|, 2
  {
    if units != [] {
      if TxStep(units[0], task, inbox, MaxTry).ok {
        RunShapeOk(units, task, inbox);
      } else {
        RunShapeFail(units, task, inbox);
      }
    }
  }

  lemma RunShapeFail(units: seq<seq<Frame>>, task: bv16, inbox: Inbox)
    requires units != [] && !TxStep(units[0], task, inbox, MaxTry).ok
    ensures RunShaped(units, task, inbox)
  {
    StepShape(units[0], task, inbox);
    assert Counts(units, task, inbox) == [Used(inbox, MaxTry)];
    assert Transmitted(units[1..], []) == [];
  }

  lemma {:induction false} RunShapeOk(units: seq<seq<Frame>>, task: bv16, inbox: Inbox)
    requires units != [] && TxStep(units[0], task, inbox, MaxTry).ok
    ensures RunShaped(units, task, inbox)
    decreases |units|, 1
  {
    var s := TxStep(units[0], task, inbox, MaxTry);
    var n := Used(inbox, MaxTry);
    var c' := Counts(units[1..], task, s.rest);
    StepShape(units[0], task, inbox);
    RunShape(units[1..], task, s.rest);
    ShapeCons(units, task, inbox, n, c', s.out, TxUnits(units[1..], task, s.rest));
  }

  /** One step in front of a shaped run gives a shaped run. */
  lemma ShapeCons(units: seq<seq<Frame>>, task: bv16, inbox: Inbox, n: nat, c': seq<nat>, out: seq<Frame>, r': TxResult)
    requires units != [] && TxStep(units[0], task, inbox, MaxTry).ok
    requires n == Used(inbox, MaxTry) && 1 <= n <= MaxTry
    requires out == TxStep(units[0], task, inbox, MaxTry).out == Repeat(units[0], n)
    requires TxStep(units[0], task, inbox, MaxTry).rest == Drop(inbox, n)
    requires c' == Counts(units[1..], task, Drop(inbox, n)) && r' == TxUnits(units[1..], task, Drop(inbox, n))
    requires forall i :: 0 <= i < |c'| ==> 1 <= c'[i] <= MaxTry
    requires r'.out == Transmitted(units[1..], c') && r'.rest == Drop(Drop(inbox, n), Sum(c'))
    ensures RunShaped(units, task, inbox)
  {
    var c := Counts(units, task, inbox);
    var r := TxUnits(units, task, inbox);
    ConsParts(units, task, inbox, n, c', out, r');
    assert c == [n] + c';
    assert r == After(out, r');
    ConsTransmitted(units, c, n, c');
    DropDrop(inbox, n, Sum(c'));
  }

  lemma ConsParts(units: seq<seq<Frame>>, task: bv16, inbox: Inbox, n: nat, c': seq<nat>, out: seq<Frame>, r': TxResult)
    requires units != [] && TxStep(units[0], task, inbox, MaxTry).ok
    requires n == Used(inbox, MaxTry) && out == TxStep(units[0], task, inbox, MaxTry).out
    requires TxStep(units[0], task, inbox, MaxTry).rest == Drop(inbox, n)
    requires c' == Counts(units[1..], task, Drop(inbox, n)) && r' == TxUnits(units[1..], task, Drop(inbox, n))
    ensures Counts(units, task, inbox) == [n] + c'
    ensures TxUnits(units, task, inbox) == After(out, r')
  {
  }

  lemma ConsTransmitted(units: seq<seq<Frame>>, c: seq<nat>, n: nat, c': seq<nat>)
    requires c == [n] + c' && |c| <= |units|
    ensures Transmitted(units, c) == Repeat(units[0], n) + Transmitted(units[1..], c')
    ensures Sum(c) == n + Sum(c')
  {
    assert c[1..] == c';
  }

  lemma {:induction false} RunOutcome(units: seq<seq<Frame>>, task: bv16, inbox: Inbox)
    ensures RunJudged(units, task, inbox)
    decreases |units|, 2
  {
    if units != [] {
      RunOutcomeStep(units, task, inbox);
    }
  }

  lemma {:induction false} RunOutcomeStep(units: seq<seq<Frame>>, task: bv16, inbox: Inbox)
    requires units != []
    ensures RunJudged(units, task, inbox)
    decreases |units|, 1
  {
    if TxStep(units[0], task, inbox, MaxTry).ok {
      RunOutcomeOk(units, task, inbox);
    } else {
      RunOutcomeFail(units, task, inbox);
    }
  }

  lemma RunOutcomeFail(units: seq<seq<Frame>>, task: bv16, inbox: Inbox)
    requires units != [] && !TxStep(units[0], task, inbox, MaxTry).ok
    ensures RunJudged(units, task, inbox)
  {
    var c := Counts(units, task, inbox);
    assert c[..0] == [];
    assert !StepOk(units, c, task, inbox, 0);
  }

  lemma {:induction false} RunOutcomeOk(units: seq<seq<Frame>>, task: bv16, inbox: Inbox)
    requires units != [] && TxStep(units[0], task, inbox, MaxTry).ok
    ensures RunJudged(units, task, inbox)
    decreases |units|, 0
  {
    var s := TxStep(units[0], task, inbox, MaxTry);
    var c := Counts(units, task, inbox);
    var c' := Counts(units[1..], task, s.rest);
    StepRest(units[0], task, inbox);
    assert c == [c[0]] + c';
    assert c[..0] == [];
    assert StepOk(units, c, task, inbox, 0);
    RunOutcome(units[1..], task, s.rest);
    StepsShift(units, c, c', task, inbox);
  }

  lemma StepsShift(units: seq<seq<Frame>>, c: seq<nat>, c': seq<nat>, task: bv16, inbox: Inbox)
    requires 0 < |c| <= |units| && c == [c[0]] + c'
    ensures forall i :: 0 < i < |c| ==>
              (StepOk(units, c, task, inbox, i) == StepOk(units[1..], c', task, Drop(inbox, c[0]), i - 1))
  {
    forall i | 0 < i < |c|
      ensures StepOk(units, c, task, inbox, i) == StepOk(units[1..], c', task, Drop(inbox, c[0]), i - 1)
    {
      StepOkShift(units, c, c', task, inbox, i);
    }
  }

  lemma StepShape(unit: seq<Frame>, task: bv16, inbox: Inbox)
    ensures var n := Used(inbox, MaxTry);
            var r := TxStep(unit, task, inbox, MaxTry);
            1 <= n <= MaxTry && r.out == Repeat(unit, n) && r.rest == Drop(inbox, n)
  {
    RetryRule(unit, task, inbox, MaxTry);
  }

  lemma StepRest(unit: seq<Frame>, task: bv16, inbox: Inbox)
    ensures TxStep(unit, task, inbox, MaxTry).rest == Drop(inbox, Used(inbox, MaxTry))
  {
    RetryRule(unit, task, inbox, MaxTry);
  }

  lemma StepOkShift(units: seq<seq<Frame>>, c: seq<nat>, c': seq<nat>, task: bv16, inbox: Inbox, i: nat)
    requires 0 < i < |c| <= |units| && c == [c[0]] + c'
    ensures StepOk(units, c, task, inbox, i)
        == StepOk(units[1..], c', task, Drop(inbox, c[0]), i - 1)
  {
    assert c[..i] == [c[0]] + c'[..i - 1];
    DropDrop(inbox, c[0], Sum(c'[..i - 1]));
  }

  // The frames of each step of `send`.

  function TaskUnit(task: bv16): seq<Frame>
  {
    [Frame(task as bv32, TaskBits)]
  }

  function QuantityUnit(quantity: bv16): seq<Frame>
  {
    [Frame(quantity as bv32, QuantityBits)]
  }

  /** A data word immediately followed by its checksum. */
  function DataUnit(word: bv32): seq<Frame>
  {
    [Frame(word, DataBits), Frame(CrcWord(word) as bv32, ChecksumBits)]
  }

  function TermUnit(): seq<Frame>
  {
    [Frame(TermValue, TermBits)]
  }

  /** One step per word, in order. */
  function DataUnits(data: seq<bv32>): (units: seq<seq<Frame>>)
    ensures |units| == |data|
    ensures forall i :: 0 <= i < |data| ==> units[i] == DataUnit(data[i])
  {
    if data == [] then [] else [DataUnit(data[0])] + DataUnits(data[1..])
  }

  /** The steps of `send`: task, quantity, one step per data word, terminator. */
  function MessageUnits(task: bv16, quantity: bv16, data: seq<bv32>): seq<seq<Frame>>
  {
    [TaskUnit(task), QuantityUnit(quantity)] + DataUnits(data) + [TermUnit()]
  }

  /** `send(task, quantity, data)`: it reads `quantity` words of `data` and does not
      check `quantity` against the receiver's limit. */
  function TxMessage(task: bv16, quantity: bv16, data: seq<bv32>, inbox: Inbox): TxResult
    requires quantity as int <= |data|
  {
    TxUnits(MessageUnits(task, quantity, data[..quantity]), task, inbox)
  }

  /** All frames of all steps, each once. */
  function Flatten(units: seq<seq<Frame>>): seq<Frame>
  {
    if units == [] then [] else units[0] + Flatten(units[1..])
  }

  lemma {:induction false} FlattenWords(words: seq<bv32>)
    ensures |Flatten(DataUnits(words))| == 2 * |words|
    decreases |words|
  {
    if words != [] {
      FlattenWords(words[1..]);
    }
  }

  /** The first `n` receive calls each report the positive ack for `task`. */
  predicate AllAcked(inbox: Inbox, task: bv16, n: nat)
  {
    n <= |inbox| && forall j :: 0 <= j < n ==> inbox[j] == Some(AckFrame(task, true))
  }

  /** Over a link that acknowledges every step, a 12-bit task's run succeeds after one
      attempt per step, transmitting every step's frames once, in order. */
  lemma {:induction false} AckedRun(units: seq<seq<Frame>>, task: bv16, inbox: Inbox)
    requires task < 0x1000
    requires AllAcked(inbox, task, |units|)
    ensures TxUnits(units, task, inbox) == TxResult(true, Flatten(units), inbox[|units|..])
    decreases |units|
  {
    if units != [] {
      AckedStep(units[0], task, inbox);
      AckedRun(units[1..], task, inbox[1..]);
      assert inbox[1..][|units| - 1..] == inbox[|units|..];
    }
  }

  /** Against a silent peer `send` fails in its first step, having sent only the task
      frame, five times. */
  lemma SilentPeer(task: bv16, quantity: bv16, data: seq<bv32>)
    requires quantity as int <= |data|
    ensures TxMessage(task, quantity, data, []) == TxResult(false, Repeat(TaskUnit(task), MaxTry), [])
  {
    Exhaustion(TaskUnit(task), task, []);
  }

  /** The steps of a run from step `k` on: step `k`, then, if it succeeded, the rest. */
  lemma UnitsFrom(units: seq<seq<Frame>>, k: nat, task: bv16, inbox: Inbox)
    requires k < |units|
    ensures var s := TxStep(units[k], task, inbox, MaxTry);
            TxUnits(units[k..], task, inbox) == if s.ok then After(s.out, TxUnits(units[k + 1..], task, s.rest)) else s
  {
    assert units[k..][1..] == units[k + 1..];
  }

  lemma RepeatSnoc<T>(s: seq<T>, n: nat)
    ensures Repeat(s, n) + s == Repeat(s, n + 1)
  {
    if n > 0 {
      RepeatSnoc(s, n - 1);
    }
  }

  /** A run of steps split in two: the second part runs only if the first succeeded. */
  lemma {:induction false} TxUnitsAppend(a: seq<seq<Frame>>, b: seq<seq<Frame>>, task: bv16, inbox: Inbox)
    ensures var r := TxUnits(a, task, inbox);
            TxUnits(a + b, task, inbox) == if r.ok then After(r.out, TxUnits(b, task, r.rest)) else r
    decreases |a|
  {
    if a == [] {
      assert a + b == b;
      assert [] + TxUnits(b, task, inbox).out == TxUnits(b, task, inbox).out;
    } else {
      var s := TxStep(a[0], task, inbox, MaxTry);
      assert (a + b)[0] == a[0];
      assert (a + b)[1..] == a[1..] + b;
      if s.ok {
        TxUnitsAppend(a[1..], b, task, s.rest);
        var r' := TxUnits(a[1..], task, s.rest);
        if r'.ok {
          assert s.out + (r'.out + TxUnits(b, task, r'.rest).out) == (s.out + r'.out) + TxUnits(b, task, r'.rest).out;
        }
      }
    }
  }

  /** A run of a single step ends as that step does. */
  lemma TxUnitsSingle(unit: seq<Frame>, task: bv16, inbox: Inbox)
    ensures TxUnits([unit], task, inbox) == TxStep(unit, task, inbox, MaxTry)
  {
    var s := TxStep(unit, task, inbox, MaxTry);
    assert [unit][1..] == [];
    assert s.out + [] == s.out;
  }

  /** `send` step by step, as its code is nested: the task step, the quantity step, the
      data steps in turn, the terminator step; each runs only if the one before succeeded. */
  function TxStaged(task: bv16, quantity: bv16, words: seq<bv32>, inbox: Inbox): TxResult
  {
    var t := TxStep(TaskUnit(task), task, inbox, MaxTry);
    var q := TxStep(QuantityUnit(quantity), task, t.rest, MaxTry);
    var w := TxUnits(DataUnits(words), task, q.rest);
    var e := TxStep(TermUnit(), task, w.rest, MaxTry);
    if !t.ok then t
    else if !q.ok then TxResult(false, t.out + q.out, q.rest)
    else if !w.ok then TxResult(false, t.out + q.out + w.out, w.rest)
    else TxResult(e.ok, t.out + q.out + w.out + e.out, e.rest)
  }

  /** The run of a message's steps is the nested run of `send`'s code. */
  lemma StagedMessage(task: bv16, quantity: bv16, data: seq<bv32>, inbox: Inbox)
    requires quantity as int <= |data|
    ensures TxMessage(task, quantity, data, inbox) == TxStaged(task, quantity, data[..quantity], inbox)
  {
    var words := data[..quantity];
    var header := [TaskUnit(task), QuantityUnit(quantity)];
    var body := header + DataUnits(words);
    assert MessageUnits(task, quantity, words) == body + [TermUnit()];
    TxUnitsAppend(body, [TermUnit()], task, inbox);
    TxUnitsAppend(header, DataUnits(words), task, inbox);
    TxUnitsAppend([TaskUnit(task)], [QuantityUnit(quantity)], task, inbox);
    assert header == [TaskUnit(task)] + [QuantityUnit(quantity)];
    TxUnitsSingle(TaskUnit(task), task, inbox);
    var t := TxStep(TaskUnit(task), task, inbox, MaxTry);
    TxUnitsSingle(QuantityUnit(quantity), task, t.rest);
    var q := TxStep(QuantityUnit(quantity), task, t.rest, MaxTry);
    var w := TxUnits(DataUnits(words), task, q.rest);
    TxUnitsSingle(TermUnit(), task, w.rest);
    var e := TxStep(TermUnit(), task, w.rest, MaxTry);
    assert t.out + q.out + w.out + e.out == (t.out + q.out) + w.out + e.out;
    assert (t.out + q.out) + w.out == t.out + q.out + w.out;
  }

  /** The data steps from word `i` on: word `i`'s step, then, if it succeeded, the rest. */
  lemma WordsFrom(words: seq<bv32>, i: nat, task: bv16, inbox: Inbox)
    requires i < |words|
    ensures var s := TxStep(DataUnit(words[i]), task, inbox, MaxTry);
            TxUnits(DataUnits(words[i..]), task, inbox) ==
              if s.ok then After(s.out, TxUnits(DataUnits(words[i + 1..]), task, s.rest)) else s
  {
    assert words[i..][0] == words[i];
    assert words[i..][1..] == words[i + 1..];
    assert DataUnits(words[i..])[1..] == DataUnits(words[i + 1..]);
  }
}

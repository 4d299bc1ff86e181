/**
 * The output conversion port (charconv.c, "Output conversion"):
 *
 *   buffered port --> flusher --> (info.buf) --> Scm_Putz(remote)
 *
 * The flusher converts the buffered port's bytes into the scratch buffer
 * and, because GLIBC_2_1_ICONV_BUG is defined, hands the scratch buffer to
 * the remote on every return, so that the buffer never overflows.
 */
module ConvOutput {
  import opened Wrappers
  import opened ConvEngine
  import opened RemotePorts
  import opened ConvContext

  datatype OutputPortResult = OutputError(err: ConvError) | OutputPort(info: ConvInfo)

  /** conv_output_flusher's answer: the count of input bytes taken, or an error. */
  datatype FlushResult = Flushed(count: nat) | FlushError(err: ConvError)

  datatype CloseResult = Closed | CloseError(err: ConvError)

  /** What a whole flush does: the writes it makes to the remote (one
      Scm_Putz of the scratch buffer per round), the input it leaves
      unconverted, how its last round ended and the engine state it leaves. */
  datatype FlushPlan = FlushPlan(ops: seq<PortOp>, left: seq<byte>, last: Outcome, shift: ShiftState)

  /** The flusher's rounds, starting from engine state `s` with `pending`
      converted bytes already in the scratch buffer: each round converts
      into the scratch buffer's free room; OUTPUT_NOT_ENOUGH sends the
      buffer and goes round again, an illegal sequence stops with nothing
      sent in that round, any other outcome sends the buffer and stops. */
  function FlushSpec(e: Engine, bufsiz: nat, s: ShiftState, input: seq<byte>, pending: seq<byte>): (f: FlushPlan)
    requires WellFormed(e) && OutputProgress(e, bufsiz) && |pending| <= bufsiz
    ensures |f.left| <= |input|
    decreases |input|, |pending|
  {
    var st := e.convert(s, input, bufsiz - |pending|);
    var out := pending + st.produced;
    match st.outcome
    case OutputNotEnough =>
      assert pending == [] ==> st.consumed > 0;
      var rest := FlushSpec(e, bufsiz, st.next, input[st.consumed..], []);
      FlushPlan([Put(out)] + rest.ops, rest.left, rest.last, rest.shift)
    case IllegalSequence => FlushPlan([], input[st.consumed..], IllegalSequence, st.next)
    case _ => FlushPlan([Put(out)], input[st.consumed..], st.outcome, st.next)
  }

  /** A flush never stops on a full buffer and leaves a suffix of its input
      unconverted. */
  lemma {:induction false} FlushSpecLeavesSuffix(e: Engine, bufsiz: nat, s: ShiftState, input: seq<byte>, pending: seq<byte>)
    requires WellFormed(e) && OutputProgress(e, bufsiz) && |pending| <= bufsiz
    ensures var f := FlushSpec(e, bufsiz, s, input, pending);
            && f.last != OutputNotEnough
            && f.left == input[|input| - |f.left|..]
    decreases |input|, |pending|
  {
    var st := e.convert(s, input, bufsiz - |pending|);
    if st.outcome == OutputNotEnough {
      assert pending == [] ==> st.consumed > 0;
      FlushSpecLeavesSuffix(e, bufsiz, st.next, input[st.consumed..], []);
    }
  }

  /** A flush only writes to the remote (it never flushes or closes it);
      one that does not fail writes something, and it writes the bytes that
      were pending in the scratch buffer first. */
  lemma {:induction false} FlushSpecSendsPendingFirst(e: Engine, bufsiz: nat, s: ShiftState, input: seq<byte>, pending: seq<byte>)
    requires WellFormed(e) && OutputProgress(e, bufsiz) && |pending| <= bufsiz
    ensures var f := FlushSpec(e, bufsiz, s, input, pending);
            && (forall i :: 0 <= i < |f.ops| ==> f.ops[i].Put?)
            && (f.last != IllegalSequence ==> f.ops != [])
            && (f.ops != [] ==> Written(f.ops)[..|pending|] == pending)
    decreases |input|, |pending|
  {
    var st := e.convert(s, input, bufsiz - |pending|);
    var f := FlushSpec(e, bufsiz, s, input, pending);
    if st.outcome == OutputNotEnough {
      assert pending == [] ==> st.consumed > 0;
      FlushSpecSendsPendingFirst(e, bufsiz, st.next, input[st.consumed..], []);
      assert Written(f.ops) == f.ops[0].bytes + Written(f.ops[1..]);
    } else if st.outcome != IllegalSequence {
      assert Written(f.ops) == f.ops[0].bytes + Written(f.ops[1..]);
    }
  }

  /** The state the flusher's loop carries from one round to the next. */
  datatype LoopState = LoopState(shift: ShiftState, input: seq<byte>, pending: seq<byte>)

  /** One round of the flusher's loop: the state of the next round, or None
      when the round returns. */
  function FlushRound(e: Engine, bufsiz: nat, st: LoopState): (next: Option<LoopState>)
    requires WellFormed(e) && |st.pending| <= bufsiz
    ensures next.Some? ==> next.value.pending == [] && |next.value.input| <= |st.input|
  {
    var step := e.convert(st.shift, st.input, bufsiz - |st.pending|);
    if step.outcome == OutputNotEnough then Some(LoopState(step.next, st.input[step.consumed..], []))
    else None
  }

  function Rounds(e: Engine, bufsiz: nat, st: LoopState, n: nat): (r: Option<LoopState>)
    requires WellFormed(e) && |st.pending| <= bufsiz
    decreases n
  {
    if n == 0 then Some(st)
    else match FlushRound(e, bufsiz, st)
      case None => None
      case Some(next) => Rounds(e, bufsiz, next, n - 1)
  }

  /** Why the flusher needs OutputProgress: an engine that reports a full
      buffer without consuming or producing anything, at full room, leaves
      the loop in the same state after any number of rounds, so the flusher
      never returns; and such an engine is exactly one without progress. */
  lemma {:induction false} StalledFlushNeverReturns(e: Engine, bufsiz: nat, s: ShiftState, input: seq<byte>, n: nat)
    requires WellFormed(e)
    requires e.convert(s, input, bufsiz) == Step(0, [], OutputNotEnough, s)
    ensures Rounds(e, bufsiz, LoopState(s, input, []), n) == Some(LoopState(s, input, []))
    ensures !OutputProgress(e, bufsiz)
  {
    assert input[0..] == input;
    if n > 0 {
      StalledFlushNeverReturns(e, bufsiz, s, input, n - 1);
    }
  }

  /** FlushSpec, one round at a time. */
  lemma FlushSpecRound(e: Engine, bufsiz: nat, s: ShiftState, input: seq<byte>, pending: seq<byte>)
    requires WellFormed(e) && OutputProgress(e, bufsiz) && |pending| <= bufsiz
    ensures var st := e.convert(s, input, bufsiz - |pending|);
            var f := FlushSpec(e, bufsiz, s, input, pending);
            && (st.outcome == IllegalSequence ==> f == FlushPlan([], input[st.consumed..], IllegalSequence, st.next))
            && (st.outcome == OutputNotEnough ==>
                  && (pending == [] ==> st.consumed > 0)
                  && var g := FlushSpec(e, bufsiz, st.next, input[st.consumed..], []);
                     f == FlushPlan([Put(pending + st.produced)] + g.ops, g.left, g.last, g.shift))
            && (st.outcome == Converted || st.outcome == InputNotEnough ==>
                  f == FlushPlan([Put(pending + st.produced)], input[st.consumed..], st.outcome, st.next))
  {
  }

  /** One round of conv_output_flusher's loop: convert into the scratch
      buffer's free room and, unless the input is illegal, send the whole
      scratch buffer (`out`) to the remote and empty it.  `plan` is what the
      rest of the flush is to do; `next` is what remains of it afterwards. */
  method FlushOnce(info: ConvInfo, rest: seq<byte>, ghost plan: FlushPlan)
    returns (outcome: Outcome, taken: nat, ghost out: seq<byte>, ghost next: FlushPlan)
    requires info.Valid() && OutputProgress(info.engine, info.bufsiz)
    requires plan == FlushSpec(info.engine, info.bufsiz, info.shift, rest, info.Pending())
    modifies info`shift, info`ptr, info.buf, info.remote`log
    ensures info.Valid()
    ensures taken <= |rest|
    ensures outcome == IllegalSequence ==>
              && plan == FlushPlan([], rest[taken..], IllegalSequence, info.shift)
              && info.Pending() == old(info.Pending()) && info.remote.log == old(info.remote.log)
    ensures outcome != IllegalSequence ==>
              info.ptr == 0 && info.remote.log == old(info.remote.log) + [Put(out)]
    ensures outcome == OutputNotEnough ==>
              && next == FlushSpec(info.engine, info.bufsiz, info.shift, rest[taken..], [])
              && plan == FlushPlan([Put(out)] + next.ops, next.left, next.last, next.shift)
              && (old(info.ptr) == 0 ==> taken > 0)
    ensures outcome == Converted || outcome == InputNotEnough ==>
              plan == FlushPlan([Put(out)], rest[taken..], outcome, info.shift)
  {
    ghost var pending := info.Pending();
    FlushSpecRound(info.engine, info.bufsiz, info.shift, rest, pending);
    var st := info.engine.convert(info.shift, rest, info.bufsiz - info.ptr);
    Store(info.buf, info.ptr, st.produced);
    info.shift := st.next;
    outcome, taken := st.outcome, st.consumed;
    out, next := [], plan;
    if st.outcome == IllegalSequence {
      assert info.buf[..info.ptr] == pending;
      return;
    }
    var bytes := info.buf[..info.ptr + |st.produced|];
    assert bytes == pending + st.produced;
    info.remote.Putz(bytes);
    info.ptr := 0;
    out := bytes;
    if st.outcome == OutputNotEnough {
      next := FlushSpec(info.engine, info.bufsiz, info.shift, rest[taken..], []);
    }
  }

  /** conv_output_flusher: converts `input` (the buffered port's bytes). */
  method OutputFlusher(info: ConvInfo, input: seq<byte>) returns (r: FlushResult)
    requires info.Valid() && OutputProgress(info.engine, info.bufsiz)
    modifies info`shift, info`ptr, info.buf, info.remote`log
    ensures info.Valid()
    ensures var f := FlushSpec(info.engine, info.bufsiz, old(info.shift), input, old(info.Pending()));
            && info.shift == f.shift
            && info.remote.log == old(info.remote.log) + f.ops
            && (f.last != IllegalSequence ==> r == Flushed(|input| - |f.left|) && info.ptr == 0)
            && (f.last == IllegalSequence ==>
                  && r == FlushError(InvalidInput)
                  && (f.ops == [] ==> info.Pending() == old(info.Pending()))
                  && (f.ops != [] ==> info.ptr == 0))
  {
    ghost var whole := FlushSpec(info.engine, info.bufsiz, old(info.shift), input, old(info.Pending()));
    ghost var plan := whole;
    ghost var sentAny := false;
    var rest := input;
    var outcome := OutputNotEnough;
    while outcome == OutputNotEnough
      invariant info.Valid()
      invariant !sentAny ==> info.Pending() == old(info.Pending())
      invariant sentAny ==> info.ptr == 0
      invariant |info.remote.log| >= |old(info.remote.log)|
      invariant sentAny <==> |info.remote.log| > |old(info.remote.log)|
      invariant outcome == OutputNotEnough ==>
                  && plan == FlushSpec(info.engine, info.bufsiz, info.shift, rest, info.Pending())
                  && old(info.remote.log) + whole.ops == info.remote.log + plan.ops
                  && whole.left == plan.left && whole.last == plan.last && whole.shift == plan.shift
      invariant outcome != OutputNotEnough ==>
                  && old(info.remote.log) + whole.ops == info.remote.log
                  && whole.left == rest && whole.last == outcome && whole.shift == info.shift
      decreases if outcome == OutputNotEnough then 1 else 0, |rest|, info.ptr
    {
      var taken;
      ghost var out, next;
      ghost var log := info.remote.log;
      outcome, taken, out, next := FlushOnce(info, rest, plan);
      if outcome == IllegalSequence {
        // Scm_Error: "invalid character sequence in the input stream"
        assert info.remote.log + plan.ops == info.remote.log;
        assert info.remote.log == log;
      } else {
        if outcome == OutputNotEnough {
          assert log + ([Put(out)] + next.ops) == log + [Put(out)] + next.ops;
          plan := next;
        }
        // otherwise INPUT_NOT_ENOUGH (an incomplete character is left for
        // the buffered port to keep) or a complete conversion
        assert |info.remote.log| == |log| + 1;
        sentAny := true;
      }
      rest := rest[taken..];
    }
    // len - inroom, or the error
    r := if outcome == IllegalSequence then FlushError(InvalidInput) else Flushed(|input| - |rest|);
  }

  /** What conv_output_closer sends to the remote: the bytes still in the
      scratch buffer, the finishing sequence when it is not empty, a flush,
      and the close when the remote is owned. */
  function CloseOps(pending: seq<byte>, finish: seq<byte>, ownerp: bool): (ops: seq<PortOp>)
    ensures 1 <= |ops| <= 4 && Flush in ops
    ensures ownerp ==> ops[|ops| - 1] == Close
  {
    (if |pending| > 0 then [Put(pending)] else [])
    + (if |finish| > 0 then [Put(finish)] else [])
    + [Flush]
    + (if ownerp then [Close] else [])
  }

  /** Closing delivers every pending byte and then the finishing sequence,
      flushes after the last write, and closes only an owned remote. */
  lemma CloseOpsDeliver(pending: seq<byte>, finish: seq<byte>, ownerp: bool)
    ensures Written(CloseOps(pending, finish, ownerp)) == pending + finish
    ensures var ops := CloseOps(pending, finish, ownerp);
            && (Close in ops <==> ownerp)
            && ops[|ops| - (if ownerp then 2 else 1)] == Flush
  {
    var a := if |pending| > 0 then [Put(pending)] else [];
    var b := if |finish| > 0 then [Put(finish)] else [];
    var c: seq<PortOp> := if ownerp then [Close] else [];
    assert Written(a) == pending;
    assert Written(b) == finish;
    assert Written([Flush]) == [];
    assert Written(c) == [];
    WrittenAppend(a, b);
    WrittenAppend(a + b, [Flush]);
    WrittenAppend(a + b + [Flush], c);
  }

  /** The closer's first step: the bytes still in the scratch buffer, if
      any, go to the remote and the buffer is emptied. */
  method SendPending(info: ConvInfo)
    requires info.Valid()
    modifies info`ptr, info.remote`log
    ensures info.Valid() && info.ptr == 0
    ensures info.remote.log == old(info.remote.log) + (if old(info.ptr) > 0 then [Put(old(info.Pending()))] else [])
  {
    if info.ptr > 0 {
      info.remote.Putz(info.buf[..info.ptr]);
      info.ptr := 0;
    }
  }

  /** The closer's finishing step: the reset sequence is stored in the
      scratch buffer and, when it is not empty, sent to the remote. */
  method SendFinish(info: ConvInfo, finish: seq<byte>)
    requires info.Valid() && |finish| <= info.bufsiz
    modifies info.buf, info.remote`log
    ensures info.remote.log == old(info.remote.log) + (if |finish| > 0 then [Put(finish)] else [])
  {
    Store(info.buf, 0, finish);
    if |finish| > 0 {
      info.remote.Putz(info.buf[..|finish|]);
    }
  }

  /** conv_output_closer. */
  method OutputCloser(info: ConvInfo) returns (r: CloseResult)
    requires info.Valid()
    modifies info, info.buf, info.remote
    ensures info.Valid() && info.ptr == 0
    ensures info.remote.chunks == old(info.remote.chunks)
    ensures var finish := info.engine.reset(old(info.shift), info.bufsiz);
            && (finish.None? ==>
                  && r == CloseError(ResetFailed)
                  && info.remote.log == old(info.remote.log) + (if old(info.ptr) > 0 then [Put(old(info.Pending()))] else [])
                  && info.remote.closed == old(info.remote.closed)
                  && info.engineOpen == old(info.engineOpen))
            && (finish.Some? ==>
                  && r == Closed
                  && info.remote.log == old(info.remote.log) + CloseOps(old(info.Pending()), finish.value, info.ownerp)
                  && info.remote.closed == (old(info.remote.closed) || info.ownerp)
                  && info.shift == InitialShift
                  && !info.engineOpen)
  {
    ghost var log0 := info.remote.log;
    ghost var a := if info.ptr > 0 then [Put(info.Pending())] else [];
    SendPending(info);
    var finish := info.engine.reset(info.shift, info.bufsiz);
    if finish.None? {
      // Scm_Error: "something wrong in resetting output character encoding conversion"
      return CloseError(ResetFailed);
    }
    SendFinish(info, finish.value);
    info.shift := InitialShift;
    info.remote.FlushPort();
    if info.ownerp {
      info.remote.ClosePort();
    }
    info.engineOpen := false;
    ghost var b := if |finish.value| > 0 then [Put(finish.value)] else [];
    ghost var c: seq<PortOp> := if info.ownerp then [Close] else [];
    assert info.remote.log == log0 + a + b + [Flush] + c;
    assert CloseOps(old(info.Pending()), finish.value, info.ownerp) == a + b + [Flush] + c;
    return Closed;
  }

  /** Scm_MakeOutputConversionPort. */
  method MakeOutputConversionPort(toPort: RemotePort, toCode: string, fromCode: string,
                                  bufsiz: int, ownerp: bool, open: Opener)
    returns (r: OutputPortResult)
    requires OpensWellFormed(open)
    ensures !toPort.isOutput ==> r == OutputError(NotOutputPort)
    ensures toPort.isOutput && open(toCode, fromCode).None? ==> r == OutputError(Unsupported(fromCode, toCode))
    ensures toPort.isOutput && open(toCode, fromCode).Some? ==>
              && r.OutputPort?
              && fresh(r.info) && fresh(r.info.buf) && r.info.Valid()
              && r.info.engine == open(toCode, fromCode).value
              && r.info.remote == toPort && r.info.ownerp == ownerp
              && r.info.fromCode == fromCode && r.info.toCode == toCode
              && r.info.bufsiz == (if bufsiz > 0 then bufsiz else DEFAULT_CONVERSION_BUFFER_SIZE)
              && r.info.Pending() == []
              && r.info.shift == InitialShift && r.info.engineOpen
  {
    if !toPort.isOutput {
      return OutputError(NotOutputPort);
    }
    var engine := open(toCode, fromCode);
    if engine.None? {
      return OutputError(Unsupported(fromCode, toCode));
    }
    var size: nat := if bufsiz > 0 then bufsiz else DEFAULT_CONVERSION_BUFFER_SIZE;
    var buf := new byte[size];
    var info := new ConvInfo(engine.value, toPort, ownerp, buf, 0, fromCode, toCode);
    return OutputPort(info);
  }
}

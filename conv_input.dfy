/**
 * The input conversion port (charconv.c, "Input conversion"):
 *
 *   buffered port <-- filler <-- (info.buf) <-- Scm_Getz(remote)
 *
 * Scm_MakeInputConversionPort builds the context, after an optional
 * priming read for a code-guessing scheme; conv_input_filler refills the
 * buffered port by running the engine over the scratch buffer.
 */
module ConvInput {
  import opened Wrappers
  import opened ConvEngine
  import opened RemotePorts
  import opened ConvContext
  import opened GuessRegistry

  datatype InputPortResult =
    | InputError(err: ConvError)
    /** The dummy port over "" returned when the priming read gets nothing. */
    | EmptyStringPort
    | InputPort(info: ConvInfo)

  /** conv_input_filler's answer to the buffered port: a byte count, or an error. */
  datatype FillResult = Filled(count: int) | FillError(err: ConvError)

  /** The value the filler returns after jconv_reset: the byte count, or a
      negative value for a failure, which went through a size_t and back to
      int.  jconv_reset's failure codes are defined in jconv.c, which is not
      part of this model; -1 stands for them here. */
  function ResetReturn(reset: Option<seq<byte>>): (r: int)
    ensures r < 0 <==> reset.None?
  {
    if reset.None? then -1 else |reset.value|
  }

  /** The buffer size the constructors settle on. */
  function EffectiveBufsiz(bufsiz: int): (r: nat)
    ensures r > 0
    ensures bufsiz > 0 ==> r == bufsiz
    ensures bufsiz <= 0 ==> r == DEFAULT_CONVERSION_BUFFER_SIZE
  {
    if bufsiz <= 0 then DEFAULT_CONVERSION_BUFFER_SIZE else bufsiz
  }

  /** Scm_MakeInputConversionPort.  `preread` is what the priming read took
      from the remote (empty when `fromCode` names no guessing scheme). */
  method MakeInputConversionPort(registry: Registry, fromPort: RemotePort, fromCode: string,
                                 toCode: string, bufsiz: int, ownerp: bool, open: Opener)
    returns (r: InputPortResult, ghost preread: seq<byte>)
    requires fromPort.Valid() && OpensWellFormed(open)
    modifies fromPort
    ensures fromPort.Valid()
    ensures fromPort.log == old(fromPort.log) && fromPort.closed == old(fromPort.closed)
    ensures old(fromPort.Unread()) == preread + fromPort.Unread()
    ensures !fromPort.isInput ==> r == InputError(NotInputPort) && preread == []
    ensures fromPort.isInput && FirstMatch(registry.procs, fromCode).None? ==> preread == []
    ensures fromPort.isInput && FirstMatch(registry.procs, fromCode).Some? ==>
              |preread| <= EffectiveBufsiz(bufsiz) && (preread == [] <==> old(fromPort.chunks) == [])
    ensures fromPort.isInput && FirstMatch(registry.procs, fromCode).Some? && preread == [] ==>
              r == EmptyStringPort
    ensures fromPort.isInput && FirstMatch(registry.procs, fromCode).Some? && preread != [] ==>
              var g := FirstMatch(registry.procs, fromCode).value;
              g.proc(preread, g.data).None? ==> r == InputError(GuessFailed(fromCode))
    // A successful guess opens a port over the primed bytes whenever the
    // guessed encoding can be converted, so none of them are lost.
    ensures fromPort.isInput && FirstMatch(registry.procs, fromCode).Some? && preread != [] ==>
              var g := FirstMatch(registry.procs, fromCode).value;
              g.proc(preread, g.data).Some? ==>
                if open(toCode, g.proc(preread, g.data).value).None?
                then r == InputError(Unsupported(g.proc(preread, g.data).value, toCode))
                else r.InputPort?
    ensures r.InputPort? ==>
              var from := if FirstMatch(registry.procs, fromCode).Some?
                          then var g := FirstMatch(registry.procs, fromCode).value; g.proc(preread, g.data).value
                          else fromCode;
              && fromPort.isInput
              && open(toCode, from).Some?
              && fresh(r.info) && fresh(r.info.buf) && r.info.Valid()
              && r.info.engine == open(toCode, from).value
              && r.info.remote == fromPort && r.info.ownerp == ownerp
              && r.info.fromCode == from && r.info.toCode == toCode
              && r.info.bufsiz == EffectiveBufsiz(bufsiz)
              && r.info.Pending() == preread
              && r.info.shift == InitialShift && r.info.engineOpen
    ensures r.InputError? && r.err.Unsupported? ==>
              fromPort.isInput && open(toCode, r.err.from).None? && r.err.to == toCode
    ensures fromPort.isInput && FirstMatch(registry.procs, fromCode).None? ==>
              if open(toCode, fromCode).None? then r == InputError(Unsupported(fromCode, toCode))
              else r.InputPort?
  {
    preread := [];
    if !fromPort.isInput {
      return InputError(NotInputPort), preread;
    }
    var pre: seq<byte> := [];
    var size := EffectiveBufsiz(bufsiz);
    var from := fromCode;
    var inbuf: array<byte> := new byte[size];
    var guess := registry.Find(fromCode);
    if guess.Some? {
      pre := fromPort.Getz(size);
      preread := pre;
      if |pre| == 0 {
        return EmptyStringPort, preread;
      }
      Store(inbuf, 0, pre);
      var guessed := guess.value.proc(pre, guess.value.data);
      if guessed.None? {
        return InputError(GuessFailed(fromCode)), preread;
      }
      from := guessed.value;
    }
    var engine := open(toCode, from);
    if engine.None? {
      return InputError(Unsupported(from, toCode)), preread;
    }
    var info := new ConvInfo(engine.value, fromPort, ownerp, inbuf, |pre|, from, toCode);
    assert inbuf[..|pre|] == inbuf[0..0 + |pre|];
    return InputPort(info), preread;
  }

  /** What one call of conv_input_filler does, as a value: its answer, the
      bytes it puts into the port buffer, the unconverted bytes it keeps,
      the engine state it leaves and whether it closes the remote. */
  datatype Fill = Fill(result: FillResult, produced: seq<byte>, pending: seq<byte>,
                       shift: ShiftState, closes: bool)

  /** conv_input_filler given the bytes `pending` from the last call and the
      bytes `read` from the remote, with room for `size - end` bytes in the
      port buffer: at end of input with nothing pending it emits the
      finishing sequence and closes an owned remote; otherwise it runs one
      conversion step over pending + read. */
  function FillSpec(e: Engine, shift: ShiftState, pending: seq<byte>, read: seq<byte>,
                    end: nat, size: nat, ownerp: bool): (f: Fill)
    requires WellFormed(e) && end <= size
    ensures |f.produced| <= size - end
    // Only the end of input with nothing pending closes the remote, and
    // only an owned one.
    ensures f.closes <==> read == [] && pending == [] && ownerp
    // At the end: the count of finishing bytes, negative only if the reset failed.
    ensures read == [] && pending == [] ==>
              && f.result.Filled? && f.pending == []
              && (f.result.count < 0 <==> e.reset(shift, size - end).None?)
              && (f.result.count >= 0 ==> f.result.count == |f.produced|)
    // An illegal sequence keeps the pending bytes where they were and
    // reports at most six bytes from where the engine stopped.
    ensures f.result.FillError? ==>
              f.pending == pending && f.result.err.InvalidSequence? && |f.result.err.snippet| <= 6
    ensures f.result.FillError? ==>
              var st := e.convert(shift, pending + read, size - end);
              && st.outcome == IllegalSequence
              && f.result.err.snippet == (pending + read)[st.consumed..][..Min(6, |pending + read| - st.consumed)]
    // Otherwise the port buffer is filled up to the returned count, and the
    // bytes kept are exactly the unconverted tail of pending + read.
    ensures (read != [] || pending != []) && f.result.Filled? ==>
              && end <= f.result.count == end + |f.produced| <= size
              && |f.pending| <= |pending + read|
              && f.pending == (pending + read)[|pending + read| - |f.pending|..]
              && f.pending == (pending + read)[e.convert(shift, pending + read, size - end).consumed..]
  {
    if read == [] && pending == [] then
      var reset := e.reset(shift, size - end);
      if reset.Some? then Fill(Filled(ResetReturn(reset)), reset.value, [], InitialShift, ownerp)
      else Fill(Filled(ResetReturn(reset)), [], [], shift, ownerp)
    else
      var input := pending + read;
      var st := e.convert(shift, input, size - end);
      if st.outcome == IllegalSequence then
        Fill(FillError(InvalidSequence(input[st.consumed..][..Min(6, |input| - st.consumed)])),
             st.produced, pending, st.next, false)
      else
        Fill(Filled(end + |st.produced|), st.produced, input[st.consumed..], st.next, false)
  }

  /** The port buffer `now`, which was `before`, holds `produced` at `end`
      and is otherwise unchanged. */
  ghost predicate Delivered(now: seq<byte>, before: seq<byte>, end: nat, produced: seq<byte>) {
    && |now| == |before| && end + |produced| <= |now|
    && now[..end] == before[..end]
    && now[end..end + |produced|] == produced
    && now[end + |produced|..] == before[end + |produced|..]
  }

  /** conv_input_filler at end of input with nothing pending: emits the
      engine's finishing sequence, and closes the remote if it is owned. */
  method FinishInput(info: ConvInfo, portBuf: array<byte>, end: nat) returns (r: FillResult)
    requires info.Valid() && info.ptr == 0
    requires portBuf != info.buf && end <= portBuf.Length
    modifies info`shift, portBuf, info.remote`log, info.remote`closed
    ensures info.Valid()
    ensures var f := FillSpec(info.engine, old(info.shift), [], [], end, portBuf.Length, info.ownerp);
            && r == f.result && info.shift == f.shift && info.Pending() == f.pending
            && Delivered(portBuf[..], old(portBuf[..]), end, f.produced)
            && info.remote.log == old(info.remote.log) + (if f.closes then [Close] else [])
  {
    var outroom := portBuf.Length - end;
    var reset := info.engine.reset(info.shift, outroom);
    var result: int;
    if reset.Some? {
      Store(portBuf, end, reset.value);
      info.shift := InitialShift;
      result := |reset.value|;
    } else {
      // jconv_reset's failure becomes (size_t)-1; `result < 0` can never
      // hold for a size_t, so no error is raised and -1 is returned.
      result := -1;
    }
    if info.ownerp {
      info.remote.ClosePort();
    }
    return Filled(result);
  }

  /** Keeps the `n` unconsumed bytes at `from` as the pending input:
      the memmove to the front of the scratch buffer and the new cursor. */
  method KeepUnconsumed(info: ConvInfo, from: nat, n: nat)
    requires info.Valid() && from + n <= info.bufsiz
    modifies info`ptr, info.buf
    ensures info.Valid()
    ensures info.Pending() == old(info.buf[from..from + n])
  {
    SlideToFront(info.buf, from, n);
    info.ptr := n;
  }

  /** A slice of a buffer, seen through the buffer's first n bytes. */
  lemma SliceOfPrefix(a: seq<byte>, n: nat, from: nat, len: nat)
    requires from + len <= n <= |a|
    ensures a[from..from + len] == a[..n][from..][..len]
  {
  }

  /** conv_input_filler's conversion step over the `insize` bytes at the
      front of the scratch buffer (the pending bytes, then those just read),
      into the port buffer's room after `end`. */
  method ConvertPending(info: ConvInfo, portBuf: array<byte>, end: nat, insize: nat,
                        ghost pending: seq<byte>, ghost read: seq<byte>)
    returns (r: FillResult)
    requires info.Valid() && insize <= info.bufsiz && info.Pending() == pending
    requires info.buf[..insize] == pending + read && (read != [] || pending != [])
    requires portBuf != info.buf && portBuf.Length == info.bufsiz && end <= portBuf.Length
    modifies info`shift, info`ptr, info.buf, portBuf
    ensures info.Valid()
    ensures var f := FillSpec(info.engine, old(info.shift), pending, read, end, portBuf.Length, info.ownerp);
            && r == f.result && info.shift == f.shift && info.Pending() == f.pending
            && Delivered(portBuf[..], old(portBuf[..]), end, f.produced)
            && !f.closes
  {
    var st := ConvertStep(info, portBuf, end, insize);
    var inroom := insize - st.consumed;
    var outroom := portBuf.Length - end - |st.produced|;
    if st.outcome == IllegalSequence {
      var cnt := if inroom >= 6 then 6 else inroom;
      var snippet := info.buf[st.consumed..st.consumed + cnt];
      SliceOfPrefix(info.buf[..], insize, st.consumed, cnt);
      return FillError(InvalidSequence(snippet));
    }
    // InputNotEnough: an incomplete character is left at the end of the
    // input; OutputNotEnough: the port buffer is full; Converted: done,
    // though the engine may still have left some bytes unconsumed.
    SliceOfPrefix(info.buf[..], insize, st.consumed, inroom);
    if inroom > 0 {
      KeepUnconsumed(info, st.consumed, inroom);
    } else {
      info.ptr := 0;
    }
    return Filled(info.bufsiz - outroom);
  }

  /** The jconv call of conv_input_filler: converts the `insize` bytes at the
      front of the scratch buffer into the port buffer's room after `end`,
      and moves the shift state on. */
  method ConvertStep(info: ConvInfo, portBuf: array<byte>, end: nat, insize: nat) returns (st: Step)
    requires info.Valid() && insize <= info.bufsiz
    requires portBuf != info.buf && end <= portBuf.Length
    modifies info`shift, portBuf
    ensures info.Valid()
    ensures st == info.engine.convert(old(info.shift), info.buf[..insize], portBuf.Length - end)
    ensures st.consumed <= insize && info.shift == st.next
    ensures Delivered(portBuf[..], old(portBuf[..]), end, st.produced)
  {
    st := info.engine.convert(info.shift, info.buf[..insize], portBuf.Length - end);
    Store(portBuf, end, st.produced);
    info.shift := st.next;
  }

  /** conv_input_filler.  The port buffer `portBuf` has the conversion
      buffer's size and its free room starts at `end`; `read` is what
      Scm_Getz delivered. */
  method InputFiller(info: ConvInfo, portBuf: array<byte>, end: nat)
    returns (r: FillResult, ghost read: seq<byte>)
    requires info.Valid() && info.remote.Valid()
    requires portBuf != info.buf && portBuf.Length == info.bufsiz && end <= portBuf.Length
    modifies info`shift, info`ptr, info.buf, portBuf, info.remote
    ensures info.Valid() && info.remote.Valid()
    ensures old(info.remote.Unread()) == read + info.remote.Unread()
    ensures |read| <= info.bufsiz - old(info.ptr)
    ensures read == [] <==> old(info.ptr) == info.bufsiz || old(info.remote.chunks) == []
    ensures var f := FillSpec(info.engine, old(info.shift), old(info.Pending()), read, end, portBuf.Length, info.ownerp);
            && r == f.result && info.shift == f.shift && info.Pending() == f.pending
            && Delivered(portBuf[..], old(portBuf[..]), end, f.produced)
            && info.remote.log == old(info.remote.log) + (if f.closes then [Close] else [])
  {
    ghost var pending := info.Pending();
    var insize := info.ptr;
    var got := info.remote.Getz(info.bufsiz - insize);
    read := got;
    if |got| == 0 && insize == 0 {
      r := FinishInput(info, portBuf, end);
      return;
    }
    Store(info.buf, insize, got);
    assert info.Pending() == pending;
    insize := insize + |got|;
    r := ConvertPending(info, portBuf, end, insize, pending, got);
  }

  /** conv_input_closer: closes the engine. */
  method InputCloser(info: ConvInfo)
    modifies info
    ensures !info.engineOpen
    ensures info.ptr == old(info.ptr) && info.shift == old(info.shift)
  {
    info.engineOpen := false;
  }
}

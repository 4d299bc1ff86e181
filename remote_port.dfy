/**
 * The remote port a conversion port wraps.  Only what the conversion layer
 * observes is modelled: an input remote delivers its bytes in chunks
 * (Scm_Getz returns at most the requested count and may return fewer), and
 * an output remote records, in order, the writes (Scm_Putz), flushes
 * (Scm_Flush) and the close (Scm_ClosePort) it receives.
 */
module RemotePorts {
  import opened ConvEngine

  datatype PortOp = Put(bytes: seq<byte>) | Flush | Close

  /** All the bytes of a chunk sequence, in order. */
  function Concat(chunks: seq<seq<byte>>): (r: seq<byte>)
  {
    if chunks == [] then [] else chunks[0] + Concat(chunks[1..])
  }

  /** The bytes a sink received, in the order they were written. */
  function Written(log: seq<PortOp>): (r: seq<byte>)
  {
    if log == [] then []
    else (if log[0].Put? then log[0].bytes else []) + Written(log[1..])
  }

  lemma {:induction false} WrittenAppend(a: seq<PortOp>, b: seq<PortOp>)
    ensures Written(a + b) == Written(a) + Written(b)
  {
    if a == [] {
      assert a + b == b;
    } else {
      assert (a + b)[1..] == a[1..] + b;
      WrittenAppend(a[1..], b);
    }
  }

  class RemotePort {
    const isInput: bool
    const isOutput: bool
    /** Bytes not yet read, in the chunks the port delivers them in. */
    var chunks: seq<seq<byte>>
    /** Everything done to the port as a sink, oldest first. */
    var log: seq<PortOp>
    var closed: bool

    ghost predicate Valid()
      reads this
    {
      forall i :: 0 <= i < |chunks| ==> chunks[i] != []
    }

    ghost function Unread(): seq<byte>
      reads this
    {
      Concat(chunks)
    }

    constructor (isInput: bool, isOutput: bool, chunks: seq<seq<byte>>)
      requires forall i :: 0 <= i < |chunks| ==> chunks[i] != []
      ensures Valid()
      ensures this.isInput == isInput && this.isOutput == isOutput
      ensures this.chunks == chunks && log == [] && !closed
    {
      this.isInput := isInput;
      this.isOutput := isOutput;
      this.chunks := chunks;
      log := [];
      closed := false;
    }

    /** Scm_Getz: reads at most n bytes; nothing at end of input or when n is 0. */
    method Getz(n: nat) returns (data: seq<byte>)
      requires Valid()
      modifies this`chunks
      ensures Valid()
      ensures |data| <= n
      ensures data + Unread() == old(Unread())
      ensures data == [] <==> n == 0 || old(chunks) == []
    {
      if n == 0 || chunks == [] {
        data := [];
        return;
      }
      var head := chunks[0];
      if |head| <= n {
        data := head;
        chunks := chunks[1..];
      } else {
        data := head[..n];
        chunks := [head[n..]] + chunks[1..];
        assert Concat(chunks) == head[n..] + Concat(old(chunks)[1..]);
        assert head == data + head[n..];
      }
    }

    /** Scm_Putz */
    method Putz(bytes: seq<byte>)
      modifies this`log
      ensures log == old(log) + [Put(bytes)]
    {
      log := log + [Put(bytes)];
    }

    /** Scm_Flush */
    method FlushPort()
      modifies this`log
      ensures log == old(log) + [Flush]
    {
      log := log + [Flush];
    }

    /** Scm_ClosePort */
    method ClosePort()
      modifies this`log, this`closed
      ensures log == old(log) + [Close] && closed
    {
      log := log + [Close];
      closed := true;
    }
  }
}

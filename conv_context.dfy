/**
 * ScmConvInfo, the conversion context shared by the input and output
 * conversion ports: the remote port, the ownership flag, the engine with
 * its shift state, and a fixed scratch buffer `buf` with the cursor `ptr`
 * (kept here as the offset info->ptr - info->buf).
 */
module ConvContext {
  import opened ConvEngine
  import opened RemotePorts
  import opened Wrappers

  const DEFAULT_CONVERSION_BUFFER_SIZE: nat := 1024

  /** Errors the conversion layer raises with Scm_Error. */
  datatype ConvError =
    | NotInputPort
    | NotOutputPort
    | GuessFailed(scheme: string)
    | Unsupported(from: string, to: string)
    | InvalidSequence(snippet: seq<byte>)
    /** The output flusher's error, which names no bytes. */
    | InvalidInput
    | ResetFailed
    /** Scm_GetCESName's complaint about an argument that is neither a
        string nor #f. */
    | StringOrFalseRequired(argname: string)

  class ConvInfo {
    const remote: RemotePort
    const ownerp: bool
    const bufsiz: nat
    const buf: array<byte>
    const fromCode: string
    const toCode: string
    const engine: Engine
    /** info->ptr - info->buf */
    var ptr: nat
    var shift: ShiftState
    var engineOpen: bool

    /** The cursor stays inside the scratch buffer, whose size never changes. */
    ghost predicate Valid()
      reads this
    {
      0 < bufsiz && buf.Length == bufsiz && ptr <= bufsiz && WellFormed(engine)
    }

    /** Bytes before the cursor: unconverted input (input port) or converted
        output not yet sent to the remote (output port). */
    ghost function Pending(): seq<byte>
      reads this, buf
      requires Valid()
    {
      buf[..ptr]
    }

    constructor (engine: Engine, remote: RemotePort, ownerp: bool, buf: array<byte>, ptr: nat,
                 fromCode: string, toCode: string)
      requires WellFormed(engine) && 0 < buf.Length && ptr <= buf.Length
      ensures Valid()
      ensures this.engine == engine && this.remote == remote && this.ownerp == ownerp
      ensures this.buf == buf && bufsiz == buf.Length && this.ptr == ptr
      ensures this.fromCode == fromCode && this.toCode == toCode
      ensures shift == InitialShift && engineOpen
    {
      this.engine := engine;
      this.remote := remote;
      this.ownerp := ownerp;
      this.buf := buf;
      this.bufsiz := buf.Length;
      this.ptr := ptr;
      this.fromCode := fromCode;
      this.toCode := toCode;
      shift := InitialShift;
      engineOpen := true;
    }
  }

  /** memmove(a, a + from, n) with the destination at the front: the n bytes
      at `from` move to the front in order, and the rest is left alone. */
  method SlideToFront(a: array<byte>, from: nat, n: nat)
    requires from + n <= a.Length
    modifies a
    ensures a[..n] == old(a[from..from + n])
    ensures a[n..] == old(a[n..])
  {
    var k := 0;
    while k < n
      invariant 0 <= k <= n
      invariant a[..k] == old(a[from..from + k])
      invariant a[k..] == old(a[k..])
    {
      a[k] := a[from + k];
      assert a[..k + 1] == a[..k] + [a[k]];
      assert old(a[from..from + k + 1]) == old(a[from..from + k]) + [old(a[from + k])];
      k := k + 1;
    }
  }

  /** Stores `data` at a[at..]: what Scm_Getz, jconv and jconv_reset do to the
      buffer they are handed. */
  method Store(a: array<byte>, at: nat, data: seq<byte>)
    requires at + |data| <= a.Length
    modifies a
    ensures a[..at] == old(a[..at])
    ensures a[at..at + |data|] == data
    ensures a[at + |data|..] == old(a[at + |data|..])
  {
    var k := 0;
    while k < |data|
      invariant 0 <= k <= |data|
      invariant a[..at] == old(a[..at])
      invariant a[at..at + k] == data[..k]
      invariant a[at + k..] == old(a[at + k..])
    {
      a[at + k] := data[k];
      assert a[at..at + k + 1] == a[at..at + k] + [a[at + k]];
      assert data[..k + 1] == data[..k] + [data[k]];
      k := k + 1;
    }
  }

  /** The values Scm_GetCESName tells apart: an unbound argument, #f, a
      string, and anything else. */
  datatype CodeArg = Unbound | FalseValue | StringValue(name: string) | OtherValue

  /** Scm_GetCESName: a missing argument or #f names the native encoding
      (the first of Scm_SupportedCharacterEncodings), a string names
      itself, and any other value is an error naming the argument. */
  function GetCESName(code: CodeArg, argname: string, supported: seq<string>): (r: Result<string, ConvError>)
    requires supported != []
    ensures r.Success? <==> !code.OtherValue?
    ensures r.Success? ==> r.value == (if code.StringValue? then code.name else supported[0])
    ensures r.Failure? ==> r.error == StringOrFalseRequired(argname)
  {
    match code
    case Unbound => Success(supported[0])
    case FalseValue => Success(supported[0])
    case StringValue(name) => Success(name)
    case OtherValue => Failure(StringOrFalseRequired(argname))
  }

  /** Scm_ConversionSupportedP: whether jconv_open (asked for `to` from
      `from`) finds an engine.  The engine it opens is closed at once. */
  function ConversionSupported(open: Opener, from: string, to: string): (r: bool)
    ensures r <==> open(to, from).Some?
  {
    match open(to, from)
    case None => false
    case Some(_) => true
  }
}

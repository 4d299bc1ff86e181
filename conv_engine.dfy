/**
 * The conversion engine behind a conversion port (jconv, jconv_reset,
 * jconv_open and jconv_close live in jconv.c, which is not part of this
 * model).  It is represented by the answers it gives: one conversion step
 * reports how many input bytes it consumed, the bytes it produced and one
 * of four outcomes; a reset produces the finishing (shift-back) sequence or
 * reports that it does not fit.
 */
module ConvEngine {
  import opened Wrappers

  newtype byte = b: int | 0 <= b < 256

  /** The engine's internal conversion (shift) state, kept abstract. */
  type ShiftState = nat

  /** The state of a freshly opened or freshly reset engine. */
  const InitialShift: ShiftState := 0

  /** The four results jconv can report. */
  datatype Outcome = Converted | InputNotEnough | OutputNotEnough | IllegalSequence

  /** What one jconv call did: consumed a prefix of the input, produced bytes
      into the output area, and left the engine in state `next`. */
  datatype Step = Step(consumed: nat, produced: seq<byte>, outcome: Outcome, next: ShiftState)

  /** A conversion engine for one (to, from) pair, as opened by jconv_open. */
  datatype Engine = Engine(
    convert: (ShiftState, seq<byte>, nat) -> Step,
    reset: (ShiftState, nat) -> Option<seq<byte>>)

  /** jconv never consumes more than it was given nor produces more than the
      room it was given; jconv_reset likewise respects the room.  (A step
      that reports a complete conversion may still leave input bytes
      unconsumed, and the filler keeps them.) */
  ghost predicate WellFormed(e: Engine) {
    && (forall s, input, room ::
          e.convert(s, input, room).consumed <= |input| && |e.convert(s, input, room).produced| <= room)
    && (forall s, room :: e.reset(s, room).Some? ==> |e.reset(s, room).value| <= room)
  }

  /** Progress: given the whole scratch buffer as output room, an engine that
      reports OUTPUT_NOT_ENOUGH has consumed at least one byte. */
  ghost predicate OutputProgress(e: Engine, bufsiz: nat) {
    forall s, input ::
      e.convert(s, input, bufsiz).outcome == OutputNotEnough ==> e.convert(s, input, bufsiz).consumed > 0
  }

  /** jconv_open: the engine for (to, from), or None for an unsupported pair. */
  type Opener = (string, string) -> Option<Engine>

  ghost predicate OpensWellFormed(open: Opener) {
    forall to, from :: open(to, from).Some? ==> WellFormed(open(to, from).value)
  }

  function Min(a: int, b: int): int { if a <= b then a else b }
}

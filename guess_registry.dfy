/**
 * The chain of code-guessing procedures (charconv.c, guess.procs): a
 * registry of (scheme name, procedure, data) entries kept newest first, a
 * case-insensitive first-match lookup, and Scm_GuessCES on top of it.
 */
module GuessRegistry {
  import opened Wrappers
  import opened ConvEngine

  /** The `void *data` registered with a procedure and handed back to it. */
  type GuessData = nat

  /** ScmCodeGuessingProc: the encoding it guesses for a sample; None is NULL. */
  type GuessProc = (seq<byte>, GuessData) -> Option<string>

  /** One conv_guess record. */
  datatype Guess = Guess(codeName: string, proc: GuessProc, data: GuessData)

  datatype GuessError = UnknownScheme(code: string)

  /** tolower in the C locale. */
  function Lower(c: char): (r: char)
  {
    if 'A' <= c <= 'Z' then (c as int + 32) as char else c
  }

  /** strcasecmp(a, b) == 0 */
  predicate EqualsIgnoreCase(a: string, b: string)
  {
    |a| == |b| && forall i :: 0 <= i < |a| ==> Lower(a[i]) == Lower(b[i])
  }

  lemma EqualsIgnoreCaseIsEquivalence(a: string, b: string, c: string)
    ensures EqualsIgnoreCase(a, a)
    ensures EqualsIgnoreCase(a, b) ==> EqualsIgnoreCase(b, a)
    ensures EqualsIgnoreCase(a, b) && EqualsIgnoreCase(b, c) ==> EqualsIgnoreCase(a, c)
  {
  }

  /** Case matters only for ASCII letters: names differing elsewhere never match. */
  lemma EqualsIgnoreCaseLetters(a: string, b: string, i: nat)
    requires EqualsIgnoreCase(a, b) && i < |a| && a[i] != b[i]
    ensures ('A' <= a[i] <= 'Z' || 'a' <= a[i] <= 'z') && ('A' <= b[i] <= 'Z' || 'a' <= b[i] <= 'z')
  {
  }

  /** The record findGuessingProc returns: the first one in the chain, i.e.
      the most recently registered, whose name matches `code`. */
  ghost function FirstMatch(procs: seq<Guess>, code: string): Option<Guess>
  {
    if procs == [] then None
    else if EqualsIgnoreCase(procs[0].codeName, code) then Some(procs[0])
    else FirstMatch(procs[1..], code)
  }

  ghost predicate IsFirstMatch(procs: seq<Guess>, code: string, i: int)
  {
    && 0 <= i < |procs|
    && EqualsIgnoreCase(procs[i].codeName, code)
    && forall j :: 0 <= j < i ==> !EqualsIgnoreCase(procs[j].codeName, code)
  }

  /** The lookup yields nothing exactly when no name matches, and otherwise
      the entry at the first matching position. */
  lemma {:induction false} FirstMatchMeaning(procs: seq<Guess>, code: string)
    ensures FirstMatch(procs, code).None? <==>
              forall i :: 0 <= i < |procs| ==> !EqualsIgnoreCase(procs[i].codeName, code)
    ensures FirstMatch(procs, code).Some? ==>
              exists i :: IsFirstMatch(procs, code, i) && procs[i] == FirstMatch(procs, code).value
  {
    if procs != [] && !EqualsIgnoreCase(procs[0].codeName, code) {
      FirstMatchMeaning(procs[1..], code);
      if FirstMatch(procs, code).Some? {
        var i :| IsFirstMatch(procs[1..], code, i) && procs[1..][i] == FirstMatch(procs, code).value;
        assert IsFirstMatch(procs, code, i + 1);
      } else {
        forall i | 0 <= i < |procs|
          ensures !EqualsIgnoreCase(procs[i].codeName, code)
        {
          if i > 0 { assert procs[i] == procs[1..][i - 1]; }
        }
      }
    } else if procs != [] {
      assert IsFirstMatch(procs, code, 0);
    }
  }

  /** Registering shadows: a name matching the new entry now finds it, and
      every other name finds what it found before. */
  lemma RegisterShadows(procs: seq<Guess>, g: Guess, code: string)
    ensures EqualsIgnoreCase(g.codeName, code) ==> FirstMatch([g] + procs, code) == Some(g)
    ensures !EqualsIgnoreCase(g.codeName, code) ==> FirstMatch([g] + procs, code) == FirstMatch(procs, code)
  {
    assert ([g] + procs)[1..] == procs;
  }

  class Registry {
    /** guess.procs, the most recently registered entry first. */
    var procs: seq<Guess>

    constructor ()
      ensures procs == []
    {
      procs := [];
    }

    /** Scm_RegisterCodeGuessingProc: links a new record at the head. */
    method Register(code: string, proc: GuessProc, data: GuessData)
      modifies this
      ensures procs == [Guess(code, proc, data)] + old(procs)
    {
      procs := [Guess(code, proc, data)] + procs;
    }

    /** findGuessingProc: scans the chain from the head. */
    method Find(code: string) returns (r: Option<Guess>)
      ensures r == FirstMatch(procs, code)
    {
      var i := 0;
      while i < |procs|
        invariant 0 <= i <= |procs|
        invariant FirstMatch(procs, code) == FirstMatch(procs[i..], code)
      {
        assert procs[i..][1..] == procs[i + 1..];
        if EqualsIgnoreCase(procs[i].codeName, code) {
          return Some(procs[i]);
        }
        i := i + 1;
      }
      return None;
    }

    /** Scm_GuessCES: an error for an unknown scheme; otherwise the
        procedure's answer, returned unchanged even when it is NULL. */
    method GuessCES(code: string, buf: seq<byte>) returns (r: Result<Option<string>, GuessError>)
      ensures FirstMatch(procs, code).None? ==> r == Failure(UnknownScheme(code))
      ensures FirstMatch(procs, code).Some? ==>
                var g := FirstMatch(procs, code).value;
                r == Success(g.proc(buf, g.data))
    {
      var g := Find(code);
      if g.None? {
        return Failure(UnknownScheme(code));
      }
      return Success(g.value.proc(buf, g.value.data));
    }
  }
}

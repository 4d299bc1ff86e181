/**
 * Cords (gc/cord): immutable strings built from C strings, concatenations
 * and character functions.  Their tree representation, positions and the
 * iterators (CORD_iter5, CORD_riter4, CORD_pos) are not part of this model;
 * a cord is the sequence of its characters, and C characters are taken as
 * unsigned 8-bit values.  A cord may contain NUL; a C string is a sequence
 * ending at its first NUL.
 */
module Cords {
  /** A C character, taken as unsigned (8 bits). */
  type CChar = bv8

  type Cord = seq<CChar>

  const NUL: CChar := 0

  function Min(a: int, b: int): int { if a <= b then a else b }

  /** strlen: the position of the terminating NUL of a C string. */
  function Strlen(s: seq<CChar>): (n: nat)
    requires NUL in s
    ensures n < |s| && s[n] == NUL && NUL !in s[..n]
  {
    if s[0] == NUL then 0
    else
      assert NUL in s[1..];
      var n := 1 + Strlen(s[1..]);
      assert s[..n] == [s[0]] + s[1..][..n - 1];
      n
  }

  /** CORD_nul_func: the character a CORD_chars cord holds at every position. */
  function NulFunc(i: nat, c: CChar): CChar
  {
    c
  }

  /** CORD_chars: i copies of c, as a function cord over CORD_nul_func. */
  function Chars(c: CChar, i: nat): (r: Cord)
    ensures |r| == i && forall j :: 0 <= j < i ==> r[j] == c
  {
    seq(i, j requires 0 <= j => NulFunc(j, c))
  }

  /** CORD_cat_char: x followed by c.  A NUL cannot travel in a C string, so
      it is appended as the one-character cord CORD_nul(1). */
  function CatChar(x: Cord, c: CChar): (r: Cord)
    ensures |r| == |x| + 1 && r[..|x|] == x && r[|x|] == c
  {
    if c == NUL then x + Chars(NUL, 1) else x + [c]
  }

  /** CORD_from_char_star: the characters of a C string before its NUL
      (CORD_EMPTY when there are none). */
  function FromCharStar(s: seq<CChar>): (r: Cord)
    requires NUL in s
    ensures |r| < |s| && s[..|r|] == r && s[|r|] == NUL && NUL !in r
  {
    var len := Strlen(s);
    if len == 0 then [] else s[..len]
  }

  /** A cord without NUL survives the trip through a C string: appending the
      terminator and reading the string back gives the cord. */
  lemma FromCharStarOfTerminated(x: Cord)
    requires NUL !in x
    ensures FromCharStar(x + [NUL]) == x
  {
    var s := x + [NUL];
    var r := FromCharStar(s);
    assert s[..|x|] == x;
  }
}

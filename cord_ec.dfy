/**
 * Extensible cords (gc/cord/cordxtra.c, with the CORD_ec record of ec.h,
 * which is not part of this model): a cord built so far plus a character
 * buffer of pending characters, flushed into the cord as one C string.
 * The buffer's size (CORD_BUFSZ in ec.h) is the length of `buf`.
 */
module CordEc {
  import opened Cords

  class ExtensibleCord {
    /** ec_cord: the characters flushed so far. */
    var cord: Cord
    /** ec_buf: the pending characters are buf[..bufptr]. */
    const buf: array<CChar>
    /** ec_bufptr, as an index into buf. */
    var bufptr: nat

    ghost predicate Valid()
      reads this
    {
      bufptr <= buf.Length
    }

    /** Everything appended so far. */
    ghost function Contents(): Cord
      reads this, buf
      requires Valid()
    {
      cord + buf[..bufptr]
    }

    constructor (buf: array<CChar>)
      ensures Valid() && this.buf == buf && cord == [] && bufptr == 0
    {
      this.buf := buf;
      cord := [];
      bufptr := 0;
    }

    /** CORD_ec_flush_buf: an empty buffer leaves everything alone;
        otherwise the pending characters, copied into a fresh C string, are
        appended to the cord and the buffer is emptied.  The contents do not
        change either way. */
    method FlushBuf()
      requires Valid()
      modifies this`cord, this`bufptr
      ensures Valid() && bufptr == 0
      ensures Contents() == old(Contents())
      ensures cord == old(cord) + old(buf[..bufptr])
    {
      var len := bufptr;
      if len == 0 {
        return;
      }
      var s := new CChar[len + 1];
      forall k | 0 <= k < len {
        s[k] := buf[k];
      }
      s[len] := NUL;
      cord := CatCharStar(cord, s[..], len);
      bufptr := 0;
    }

    /** CORD_ec_append_cord: flushes the buffer, then appends s to the cord. */
    method AppendCord(s: Cord)
      requires Valid()
      modifies this`cord, this`bufptr
      ensures Valid() && bufptr == 0
      ensures Contents() == old(Contents()) + s
    {
      FlushBuf();
      cord := cord + s;
    }
  }

  /** CORD_cat_char_star: x followed by the first len characters of the
      string s. */
  function CatCharStar(x: Cord, s: seq<CChar>, len: nat): (r: Cord)
    requires len <= |s|
    ensures |r| == |x| + len && r[..|x|] == x && r[|x|..] == s[..len]
  {
    x + s[..len]
  }
}

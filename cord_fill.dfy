/**
 * Filling a character buffer from a cord (gc/cord/cordxtra.c): the
 * CORD_fill_data record and its two callbacks, CORD_fill_buf which runs
 * them over a cord from position i, and CORD_to_char_star built on it.
 * CORD_iter5 is not part of this model: it feeds the cord's characters in
 * order to the per-character callback, or whole C-string pieces to the
 * batched one, until a callback returns 1; here CORD_fill_buf feeds them one
 * at a time.
 */
module CordFill {
  import opened Cords

  class FillData {
    /** The number of characters wanted. */
    const len: nat
    /** How many have been stored. */
    var count: nat
    const buf: array<CChar>

    constructor (len: nat, buf: array<CChar>)
      ensures this.len == len && this.buf == buf && count == 0
    {
      this.len := len;
      this.buf := buf;
      count := 0;
    }

    /** CORD_fill_proc: stores c at the count, counts it, and asks to stop
        once the count has reached `len`. */
    method FillProc(c: CChar) returns (stop: bool)
      requires count < buf.Length
      modifies this`count, buf
      ensures buf[..] == old(buf[..])[old(count) := c]
      ensures count == old(count) + 1
      ensures stop <==> count >= len
    {
      buf[count] := c;
      count := count + 1;
      stop := count >= len;
    }

    /** CORD_batched_fill_proc: copies the C string s up to its NUL, or
        until the count reaches `len`.  The NUL itself is copied too, at the
        count, without being counted. */
    method BatchedFillProc(s: seq<CChar>) returns (stop: bool)
      requires NUL in s && count < len <= buf.Length
      modifies this`count, buf
      ensures var n := Min(Strlen(s), len - old(count));
              && count == old(count) + n <= len
              && (stop <==> Strlen(s) >= len - old(count))
      ensures forall j :: old(count) <= j < count ==> buf[j] == s[j - old(count)]
      ensures !stop ==> buf[count] == NUL
      ensures forall j :: 0 <= j < buf.Length && !(old(count) <= j < count) && !(!stop && j == count) ==>
                buf[j] == old(buf[j])
    {
      var c := count;
      var t := 0;
      while true
        invariant 0 <= t <= Strlen(s) && c == old(count) + t < len
        invariant forall j :: old(count) <= j < c ==> buf[j] == s[j - old(count)]
        invariant forall j :: 0 <= j < buf.Length && !(old(count) <= j < c) ==> buf[j] == old(buf[j])
        decreases Strlen(s) - t
      {
        buf[c] := s[t];
        if s[t] == NUL {
          count := c;
          return false;
        }
        c := c + 1;
        t := t + 1;
        if c >= len {
          count := c;
          return true;
        }
      }
    }
  }

  /** CORD_fill_buf as written: with len == 0 the first character already
      makes the count reach len, so it is stored although the buffer was
      only assumed to hold no characters, and the answer is 1.  (The model
      needs one cell to store it in.) */
  method FillBufAsWritten(x: Cord, i: nat, len: nat, buf: array<CChar>) returns (r: int)
    requires i <= |x| && len <= buf.Length && buf.Length >= 1
    modifies buf
    ensures len == 0 && i < |x| ==> r == 1 && buf[0] == x[i]
  {
    var fd := new FillData(len, buf);
    var k := i;
    while k < |x|
      invariant i <= k <= |x| && fd.count == k - i && fd.buf == buf
      invariant len == 0 ==> k == i
      invariant len > 0 ==> fd.count < len
      modifies fd, buf
    {
      var stop := fd.FillProc(x[k]);
      if stop {
        return 1;
      }
      k := k + 1;
    }
    return 0;
  }

  /** A buffer of one cell, asked for no characters of "a", gets the 'a'. */
  method FillBufZeroLength() returns (r: int, stored: CChar)
    ensures r == 1 && stored == 0x61
  {
    var buf := new CChar[1];
    r := FillBufAsWritten([0x61], 0, 0, buf);
    stored := buf[0];
  }

  /** CORD_fill_buf with the guard its comment promises: fills buf with the
      `len` characters of x from position i and answers 1, or answers 0 when
      len is zero or fewer characters are left; the buffer beyond `len` is
      never written. */
  method FillBuf(x: Cord, i: nat, len: nat, buf: array<CChar>) returns (r: int)
    requires i <= |x| && len <= buf.Length
    modifies buf
    ensures r == 1 <==> len > 0 && |x| - i >= len
    ensures r == 0 || r == 1
    ensures r == 1 ==> buf[..len] == x[i..i + len]
    ensures r == 0 && len > 0 ==> buf[..|x| - i] == x[i..]
    ensures buf[len..] == old(buf[len..])
  {
    if len == 0 {
      return 0;
    }
    var fd := new FillData(len, buf);
    var k := i;
    while k < |x|
      invariant i <= k <= |x| && fd.count == k - i < len && fd.buf == buf && fd.len == len
      invariant buf[..k - i] == x[i..k]
      invariant buf[len..] == old(buf[len..])
      modifies fd, buf
    {
      var stop := fd.FillProc(x[k]);
      assert buf[..k + 1 - i] == x[i..k + 1];
      if stop {
        return 1;
      }
      k := k + 1;
    }
    return 0;
  }

  /** CORD_to_char_star: a fresh C string holding the cord's characters and
      a NUL at index len.  (CORD_fill_buf cannot fail here, so the source's
      "malfunction" abort is never reached.) */
  method ToCharStar(x: Cord) returns (result: array<CChar>)
    ensures fresh(result)
    ensures result[..] == x + [NUL]
  {
    var len := |x|;
    result := new CChar[len + 1];
    if len > 0 {
      var r := FillBuf(x, 0, len, result);
      assert r == 1;
    }
    result[len] := NUL;
    assert result[..] == result[..len] + [result[len]];
  }
}
